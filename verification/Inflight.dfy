/** The outgoing QoS 1/2 window of gmqtt/server/client.go: poll loop, message queue and acknowledgements. */
module Inflight {
  import opened Digraph
  import opened MsgQueue
  import L = Limiter

  /** Where the poll loop stands: before a poll, with ids in hand, or with the ids the read left over. */
  datatype Phase = Idle | Holding(ids: seq<int>) | Leftover(ids: seq<int>)

  /** The queue's maximum, the lifetime of an in-flight message and the client's receive maximum. */
  datatype Config = Config(max: nat, ttl: nat, maxInflight: nat)

  /** `outstanding` is the client's view: the ids of QoS 1/2 messages it got and has not finished by PUBACK, PUBCOMP
      or an error PUBREC. The server's view is the in-flight part of the queue. */
  datatype Session = Session(lim: L.State, queue: Queue, outstanding: multiset<int>, phase: Phase, clock: nat)

  datatype Event =
    | Drain
    | Poll(ids: seq<int>)
    | Read(now: nat)
    | ReleaseRest
    | Queued(elem: Entry, now: nat)
    | Finished(id: int)
    | PubrecOk(id: int)

  function Held(p: Phase): seq<int> {
    if p.Idle? then [] else p.ids
  }

  /** The ids the server accounts for: those in flight, then those in the loop's hands. */
  function InUse(s: Session): seq<int> {
    Ids(s.queue.inflight) + Held(s.phase)
  }

  /** The new message pushes an expired in-flight one out of the full queue. */
  predicate Drops(c: Config, s: Session, e: Event) {
    e.Queued? && Choose(s.queue, e.elem, c.max, e.now).Oldest?
  }

  ghost predicate Init(c: Config, s: Session) {
    c.maxInflight <= L.MaxPacketID &&
    s == Session(L.State(0, c.maxInflight, false, 1, {}), Queue([], [], false), multiset{}, Idle, s.clock)
  }

  ghost predicate Step(c: Config, s: Session, e: Event, s': Session) {
    match e
    case Drain => s.phase.Idle? && s' == s.(queue := s.queue.(drained := true))
    case Poll(ids) =>
      && s.phase.Idle? && s.queue.drained && !s.lim.exit && s.lim.used < s.lim.limit
      && L.Polled(s.lim, L.Min(100, c.maxInflight), ids, s'.lim)
      && L.IsPacketID(s'.lim.freePid)
      && s' == s.(lim := s'.lim, phase := Holding(ids))
    case Read(now) =>
      && s.phase.Holding? && s.queue.drained && s.queue.unread != [] && s.clock <= now
      && var (elems, queue) := ReadNew(s.queue, s.phase.ids, now, c.ttl);
      && |NeedAck(elems)| <= |s.phase.ids|
      && s' == s.(queue := queue, outstanding := s.outstanding + multiset(Ids(NeedAck(elems))), clock := now,
                  phase := Leftover(s.phase.ids[|NeedAck(elems)|..]))
    case ReleaseRest =>
      s.phase.Leftover? && s' == s.(lim := L.ReleaseAll(s.lim, s.phase.ids), phase := Idle)
    case Queued(elem, now) =>
      && elem.id == 0 && s.clock <= now
      && s' == s.(queue := Added(s.queue, elem, Choose(s.queue, elem, c.max, now)), clock := now,
                  lim := if Drops(c, s, e) then L.Release(s.lim, s.queue.inflight[0].id) else s.lim)
    case Finished(id) =>
      s' == s.(lim := L.Release(s.lim, id), queue := Removed(s.queue, id), outstanding := s.outstanding - multiset{id})
    case PubrecOk(id) => s' == s.(queue := Replaced(s.queue, id))
  }

  /** The client finishes only what it got and has not finished yet. */
  predicate Honest(s: Session, e: Event) {
    e.Finished? ==> e.id in s.outstanding
  }

  /** The limiter locks exactly these ids. */
  ghost predicate Accounts(lim: L.State, ids: seq<int>) {
    L.Consistent(lim) && lim.used <= lim.limit && NoDup(ids) && lim.locked == Elems(ids)
  }

  /** The locked ids are exactly those in flight and those in the loop's hands, each once; the client has at
      least the messages that are in flight. */
  ghost predicate Inv(s: Session) {
    Accounts(s.lim, InUse(s)) && multiset(Ids(s.queue.inflight)) <= s.outstanding
  }

  // ---- what the steps do to the ids in use ----

  lemma SplitElems(ids: seq<int>, k: nat)
    requires NoDup(ids) && k <= |ids|
    ensures Elems(ids) == Elems(ids[..k]) + Elems(ids[k..]) && Elems(ids[..k]) !! Elems(ids[k..])
    ensures NoDup(ids[..k]) && NoDup(ids[k..])
  {
    assert ids == ids[..k] + ids[k..];
    forall j | k <= j < |ids| ensures ids[j] !in ids[..k] {
      assert forall i :: 0 <= i < k ==> ids[i] != ids[j];
    }
  }

  lemma JoinElems(a: seq<int>, b: seq<int>)
    requires NoDup(a) && NoDup(b) && forall x :: x in b ==> x !in a
    ensures NoDup(a + b) && Elems(a + b) == Elems(a) + Elems(b)
  {
    forall i, j | 0 <= i < j < |a + b| ensures (a + b)[i] != (a + b)[j] {
      if i < |a| <= j { assert b[j - |a|] in b && a[i] in a; }
    }
  }

  lemma LockMore(lim: L.State, inUse: seq<int>, max: nat, ids: seq<int>, lim': L.State)
    requires Accounts(lim, inUse) && L.Polled(lim, max, ids, lim') && L.IsPacketID(lim'.freePid)
    ensures Accounts(lim', inUse + ids)
  {
    forall id | id in ids ensures id !in inUse {
      assert id in inUse ==> id in Elems(inUse);
    }
    JoinElems(inUse, ids);
    NoDupCard(inUse + ids);
    NoDupCard(inUse);
  }

  lemma UnlockOne(lim: L.State, ids: seq<int>, i: nat)
    requires Accounts(lim, ids) && i < |ids|
    ensures Accounts(L.Release(lim, ids[i]), ids[..i] + ids[i + 1..])
  {
    WithoutOne(ids, i);
    assert ids[i] in Elems(ids);
  }

  lemma UnlockAll(lim: L.State, kept: seq<int>, ids: seq<int>)
    requires Accounts(lim, kept + ids)
    ensures Accounts(L.ReleaseAll(lim, ids), kept)
  {
    L.ReleaseAllMeans(lim, ids);
    SubsetCard(lim.locked - Elems(ids), lim.locked);
    SplitElems(kept + ids, |kept|);
    assert (kept + ids)[..|kept|] == kept && (kept + ids)[|kept|..] == ids;
  }

  lemma PollKeepsInv(c: Config, s: Session, e: Event, s': Session)
    requires Inv(s) && Step(c, s, e, s') && e.Poll?
    ensures Inv(s')
  {
    PollMoves(c, s, e, s');
    hide Step, InUse, Accounts, L.Polled;
    LockMore(s.lim, InUse(s), L.Min(100, c.maxInflight), e.ids, s'.lim);
  }

  lemma PollMoves(c: Config, s: Session, e: Event, s': Session)
    requires Step(c, s, e, s') && e.Poll?
    ensures L.Polled(s.lim, L.Min(100, c.maxInflight), e.ids, s'.lim) && L.IsPacketID(s'.lim.freePid)
    ensures s'.queue == s.queue && s'.outstanding == s.outstanding && InUse(s') == InUse(s) + e.ids
  {
    hide Ids, L.Polled;
  }

  /** A read moves a prefix of the held ids into flight. */
  lemma ReadMoves(c: Config, s: Session, e: Event, s': Session) returns (k: nat)
    requires Step(c, s, e, s') && e.Read?
    ensures k <= |Held(s.phase)| && s'.lim == s.lim && Held(s'.phase) == Held(s.phase)[k..]
    ensures Ids(s'.queue.inflight) == Ids(s.queue.inflight) + Held(s.phase)[..k]
    ensures s'.outstanding == s.outstanding + multiset(Held(s.phase)[..k])
    ensures InUse(s') == InUse(s)
  {
    var elems := ReadNew(s.queue, s.phase.ids, e.now, c.ttl).0;
    ReadUsesPrefix(s.queue.unread, s.phase.ids, ReadCount(s.queue, s.phase.ids), e.now, c.ttl);
    IdsAppend(s.queue.inflight, NeedAck(elems));
    k := |NeedAck(elems)|;
    hide Ids, ReadUnread, NeedAck;
    assert Ids(NeedAck(elems)) == s.phase.ids[..k];
    assert Ids(s'.queue.inflight) == Ids(s.queue.inflight) + s.phase.ids[..k];
    Rejoin(Ids(s.queue.inflight), s.phase.ids, k);
  }

  lemma Rejoin(a: seq<int>, b: seq<int>, k: nat)
    requires k <= |b|
    ensures (a + b[..k]) + b[k..] == a + b
  {
  }

  lemma ReadKeepsInv(c: Config, s: Session, e: Event, s': Session)
    requires Inv(s) && Step(c, s, e, s') && e.Read?
    ensures Inv(s')
  {
    var k := ReadMoves(c, s, e, s');
    hide Step, InUse, NoDup, Elems, L.Consistent;
    assert multiset(Ids(s.queue.inflight) + Held(s.phase)[..k]) ==
           multiset(Ids(s.queue.inflight)) + multiset(Held(s.phase)[..k]);
  }

  lemma ReleaseKeepsInv(c: Config, s: Session, e: Event, s': Session)
    requires Inv(s) && Step(c, s, e, s') && e.ReleaseRest?
    ensures Inv(s')
  {
    UnlockAll(s.lim, Ids(s.queue.inflight), s.phase.ids);
    hide Accounts, Ids;
    assert InUse(s') == Ids(s.queue.inflight);
  }

  lemma WithoutOne(ids: seq<int>, i: nat)
    requires NoDup(ids) && i < |ids|
    ensures var rest := ids[..i] + ids[i + 1..];
            NoDup(rest) && Elems(rest) == Elems(ids) - {ids[i]} && multiset(rest) == multiset(ids) - multiset{ids[i]}
  {
    assert ids == ids[..i] + [ids[i]] + ids[i + 1..];
  }

  /** What happens when the i-th in-flight message leaves and its id is released. */
  lemma LeaveKeepsInv(s: Session, i: nat, s': Session)
    requires Inv(s) && i < |s.queue.inflight| && s'.queue.inflight == Without(s.queue.inflight, i)
    requires s'.lim == L.Release(s.lim, s.queue.inflight[i].id) && s'.phase == s.phase
    requires multiset(Ids(s'.queue.inflight)) <= s'.outstanding
    ensures Inv(s')
  {
    var ids := InUse(s);
    WithoutIds(s.queue.inflight, i);
    CutFront(Ids(s.queue.inflight), Held(s.phase), i);
    UnlockOne(s.lim, ids, i);
    hide Ids, Without, Accounts;
  }

  lemma CutFront(a: seq<int>, b: seq<int>, i: nat)
    requires i < |a|
    ensures (a[..i] + a[i + 1..]) + b == (a + b)[..i] + (a + b)[i + 1..]
  {
  }

  lemma WithoutIds(es: seq<Entry>, i: nat)
    requires i < |es|
    ensures Ids(Without(es, i)) == Ids(es)[..i] + Ids(es)[i + 1..]
  {
    var a, b := Ids(Without(es, i)), Ids(es)[..i] + Ids(es)[i + 1..];
    hide Ids;
    forall j | 0 <= j < |es| - 1 ensures a[j] == b[j] {
      assert Without(es, i)[j] == es[if j < i then j else j + 1];
    }
  }

  lemma LeaveMultiset(es: seq<Entry>, i: nat)
    requires NoDup(Ids(es)) && i < |es|
    ensures multiset(Ids(Without(es, i))) == multiset(Ids(es)) - multiset{es[i].id}
  {
    WithoutIds(es, i);
    WithoutOne(Ids(es), i);
  }

  lemma InflightDistinct(s: Session)
    requires NoDup(InUse(s))
    ensures NoDup(Ids(s.queue.inflight)) && NoDup(Held(s.phase))
    ensures forall id :: id in Held(s.phase) ==> id !in Ids(s.queue.inflight)
  {
    var k := |s.queue.inflight|;
    assert InUse(s)[..k] == Ids(s.queue.inflight) && InUse(s)[k..] == Held(s.phase);
    SplitElems(InUse(s), k);
    forall id | id in Held(s.phase) ensures id !in Ids(s.queue.inflight) {
      assert id in Elems(InUse(s)[k..]);
    }
  }

  lemma {:induction false} FinishKeepsInv(c: Config, s: Session, e: Event, s': Session)
    requires Inv(s) && Step(c, s, e, s') && e.Finished? && e.id !in Held(s.phase)
    ensures Inv(s')
  {
    InflightDistinct(s);
    FoundOrNot(s.queue.inflight, e.id);
    var i := Position(s.queue.inflight, e.id);
    hide First, Ids, Position, NoDup;
    if i < |s.queue.inflight| {
      LeaveMultiset(s.queue.inflight, i);
      LeaveKeepsInv(s, i, s');
    } else {
      assert e.id !in InUse(s) && s'.queue == s.queue;
      assert multiset(Ids(s.queue.inflight))[e.id] == 0;
    }
  }

  lemma {:induction false} QueuedKeepsInv(c: Config, s: Session, e: Event, s': Session)
    requires Inv(s) && Step(c, s, e, s') && e.Queued?
    ensures Inv(s')
  {
    AddedKeeps(s.queue, e.elem, c.max, e.now);
    if Drops(c, s, e) {
      InflightDistinct(s);
      DropsFront(s.queue.inflight);
      LeaveMultiset(s.queue.inflight, 0);
      hide Ids, NoDup, Choose;
      LeaveKeepsInv(s, 0, s');
    }
  }

  lemma ReplacedIds(q: Queue, id: int)
    ensures Ids(Replaced(q, id).inflight) == Ids(q.inflight)
  {
    hide Ids, Position;
  }

  lemma {:induction false} StepKeepsInv(c: Config, s: Session, e: Event, s': Session)
    requires Inv(s) && Step(c, s, e, s') && (e.Finished? ==> e.id !in Held(s.phase))
    ensures Inv(s')
  {
    match e {
      case Poll(_) => PollKeepsInv(c, s, e, s');
      case Read(_) => ReadKeepsInv(c, s, e, s');
      case ReleaseRest => ReleaseKeepsInv(c, s, e, s');
      case Queued(_, _) => QueuedKeepsInv(c, s, e, s');
      case Finished(_) => FinishKeepsInv(c, s, e, s');
      case PubrecOk(id) => ReplacedIds(s.queue, id);
      case Drain =>
    }
  }

  /** An acknowledgement keeps the accounting exactly when its id is not one the loop still holds. */
  lemma {:induction false} AckIsExact(c: Config, s: Session, id: int, s': Session)
    requires Inv(s) && Step(c, s, Finished(id), s')
    ensures Inv(s') <==> id !in Held(s.phase)
  {
    if id !in Held(s.phase) {
      StepKeepsInv(c, s, Finished(id), s');
    } else {
      InflightDistinct(s);
      FoundOrNot(s.queue.inflight, id);
      hide Ids, Position, Accounts, First;
      assert InUse(s') == InUse(s);
      HeldIsLocked(s, id);
      Unlocked(s', id);
    }
  }

  lemma HeldIsLocked(s: Session, id: int)
    requires Inv(s) && id in Held(s.phase)
    ensures id in InUse(s) && id in s.lim.locked
  {
    assert id in InUse(s);
  }

  lemma Unlocked(s: Session, id: int)
    requires id in InUse(s) && id !in s.lim.locked
    ensures !Inv(s)
  {
    assert id in Elems(InUse(s));
  }

  // ---- the client's view ----

  /** The client has exactly the messages that are in flight. */
  ghost predicate InStep(s: Session) {
    s.outstanding == multiset(Ids(s.queue.inflight))
  }

  /** With views that agree an honest acknowledgement never names an id in the loop's hands, and the views go on
      agreeing exactly when no in-flight message is dropped. */
  lemma {:induction false} StepIsExact(c: Config, s: Session, e: Event, s': Session)
    requires Inv(s) && InStep(s) && Step(c, s, e, s') && Honest(s, e)
    ensures Inv(s') && (InStep(s') <==> !Drops(c, s, e))
  {
    InflightDistinct(s);
    StepKeepsInv(c, s, e, s');
    match e {
      case Read(_) =>
        var k := ReadMoves(c, s, e, s');
        hide Step, InUse, Inv, Accounts;
        assert multiset(Ids(s.queue.inflight) + Held(s.phase)[..k]) ==
               multiset(Ids(s.queue.inflight)) + multiset(Held(s.phase)[..k]);
      case Queued(elem, now) => QueuedInStep(c, s, elem, now, s');
      case Finished(id) => FinishedInStep(c, s, id, s');
      case PubrecOk(id) => ReplacedIds(s.queue, id);
      case Poll(_) =>
      case ReleaseRest =>
      case Drain =>
    }
  }

  lemma {:induction false} QueuedInStep(c: Config, s: Session, elem: Entry, now: nat, s': Session)
    requires NoDup(Ids(s.queue.inflight)) && InStep(s) && Step(c, s, Queued(elem, now), s')
    ensures InStep(s') <==> !Drops(c, s, Queued(elem, now))
  {
    AddedKeeps(s.queue, elem, c.max, now);
    if Drops(c, s, Queued(elem, now)) {
      DropsFront(s.queue.inflight);
      LeaveMultiset(s.queue.inflight, 0);
      assert s.queue.inflight[0].id in multiset(Ids(s.queue.inflight));
    }
  }

  lemma {:induction false} FinishedInStep(c: Config, s: Session, id: int, s': Session)
    requires NoDup(Ids(s.queue.inflight)) && InStep(s) && Step(c, s, Finished(id), s') && id in s.outstanding
    ensures InStep(s')
  {
    FoundOrNot(s.queue.inflight, id);
    LeaveMultiset(s.queue.inflight, Position(s.queue.inflight, id));
  }

  // ---- whole runs ----

  /** A run of a fresh session with an honest client. */
  ghost predicate Behaviour(c: Config, states: seq<Session>, events: seq<Event>) {
    && |states| == |events| + 1 && Init(c, states[0])
    && forall i: nat :: i < |events| ==> StepAt(c, states, events, i)
  }

  ghost predicate StepAt(c: Config, states: seq<Session>, events: seq<Event>, i: nat)
    requires |states| == |events| + 1 && i < |events|
  {
    Step(c, states[i], events[i], states[i + 1]) && Honest(states[i], events[i])
  }

  /** No acknowledgement names an id in the loop's hands. */
  ghost predicate NoneHeld(states: seq<Session>, events: seq<Event>, n: nat)
    requires n <= |events| && |states| == |events| + 1
  {
    forall i: nat :: i < n && events[i].Finished? ==> events[i].id !in Held(states[i].phase)
  }

  ghost predicate NoDrops(c: Config, states: seq<Session>, events: seq<Event>, n: nat)
    requires n <= |events| && |states| == |events| + 1
  {
    forall i: nat :: i < n ==> !Drops(c, states[i], events[i])
  }

  ghost function DropCount(c: Config, states: seq<Session>, events: seq<Event>, n: nat): nat
    requires n <= |events| && |states| == |events| + 1
  {
    if n == 0 then 0
    else DropCount(c, states, events, n - 1) + if Drops(c, states[n - 1], events[n - 1]) then 1 else 0
  }

  lemma InitInv(c: Config, s: Session)
    requires Init(c, s)
    ensures Inv(s) && InStep(s)
  {
    assert Elems<int>([]) == {};
  }

  lemma KeepsLimit(c: Config, s: Session, e: Event, s': Session)
    requires Step(c, s, e, s')
    ensures s'.lim.limit == s.lim.limit
  {
    if e.ReleaseRest? { ReleaseAllKeepsLimit(s.lim, s.phase.ids); }
  }

  lemma {:induction false} ReleaseAllKeepsLimit(lim: L.State, ids: seq<int>)
    ensures L.ReleaseAll(lim, ids).limit == lim.limit
    decreases |ids|
  {
    if ids != [] { ReleaseAllKeepsLimit(lim, ids[..|ids| - 1]); }
  }

  lemma RunKeepsLimit(c: Config, states: seq<Session>, events: seq<Event>, n: nat)
    requires Behaviour(c, states, events) && n < |states|
    ensures states[n].lim.limit == c.maxInflight
  {
    if n > 0 {
      RunKeepsLimit(c, states, events, n - 1);
      assert StepAt(c, states, events, n - 1);
      KeepsLimit(c, states[n - 1], events[n - 1], states[n]);
    }
  }

  /** A step leaves the client with at most one message more than the server knows of, if it drops one. */
  lemma {:induction false} SurplusStep(c: Config, s: Session, e: Event, s': Session)
    requires Inv(s) && Step(c, s, e, s') && Honest(s, e)
    ensures |s'.outstanding| - |s'.queue.inflight| <=
            |s.outstanding| - |s.queue.inflight| + if Drops(c, s, e) then 1 else 0
  {
    match e {
      case Read(_) => var k := ReadMoves(c, s, e, s');
      case Queued(elem, now) => AddedKeeps(s.queue, elem, c.max, now);
      case Finished(id) => FoundOrNot(s.queue.inflight, id);
      case _ =>
    }
  }

  /** Over every run in which no acknowledgement names an id in the loop's hands: at each loop boundary the locked ids
      are exactly those in flight, never more than the receive maximum, and the client has at most one more message
      unfinished per message dropped in flight. */
  lemma {:induction false} WindowIsExact(c: Config, states: seq<Session>, events: seq<Event>, n: nat)
    requires Behaviour(c, states, events) && n <= |events| && NoneHeld(states, events, n)
    ensures var s := states[n];
            && Inv(s) && |s.queue.inflight| <= c.maxInflight
            && (s.phase == Idle ==> s.lim.locked == Elems(Ids(s.queue.inflight)) && s.lim.used == |s.queue.inflight|)
            && |s.outstanding| <= |s.queue.inflight| + DropCount(c, states, events, n)
  {
    if n == 0 {
      InitInv(c, states[0]);
    } else {
      WindowIsExact(c, states, events, n - 1);
      assert StepAt(c, states, events, n - 1);
      assert events[n - 1].Finished? ==> events[n - 1].id !in Held(states[n - 1].phase);
      StepKeepsInv(c, states[n - 1], events[n - 1], states[n]);
      SurplusStep(c, states[n - 1], events[n - 1], states[n]);
    }
    RunKeepsLimit(c, states, events, n);
    hide Step, Behaviour, NoneHeld, Ids, Drops, DropCount;
    Occupied(states[n]);
  }

  ghost predicate AlwaysInv(states: seq<Session>, n: nat)
    requires n < |states|
  {
    forall i: nat :: i <= n ==> Inv(states[i])
  }

  /** Over every run the accounting is exact in every state exactly when no acknowledgement names an id in the loop's
      hands. */
  lemma {:induction false} AccountingIsExact(c: Config, states: seq<Session>, events: seq<Event>, n: nat)
    requires Behaviour(c, states, events) && n <= |events|
    ensures AlwaysInv(states, n) <==> NoneHeld(states, events, n)
  {
    if n == 0 {
      InitInv(c, states[0]);
    } else {
      AccountingIsExact(c, states, events, n - 1);
      OneMoreInv(states, events, n);
      assert StepAt(c, states, events, n - 1);
      var s, e, s' := states[n - 1], events[n - 1], states[n];
      hide Step, Behaviour, Inv, AlwaysInv, NoneHeld, Honest;
      if AlwaysInv(states, n - 1) {
        if e.Finished? {
          assert e == Finished(e.id);
          AckIsExact(c, s, e.id, s');
        } else {
          StepKeepsInv(c, s, e, s');
        }
      }
    }
  }

  lemma OneMoreInv(states: seq<Session>, events: seq<Event>, n: nat)
    requires 0 < n <= |events| && |states| == |events| + 1
    ensures AlwaysInv(states, n) <==> AlwaysInv(states, n - 1) && Inv(states[n])
    ensures AlwaysInv(states, n - 1) ==> Inv(states[n - 1])
    ensures NoneHeld(states, events, n) <==>
            NoneHeld(states, events, n - 1) &&
            (events[n - 1].Finished? ==> events[n - 1].id !in Held(states[n - 1].phase))
  {
    hide Inv, Held;
  }

  lemma Occupied(s: Session)
    requires Inv(s)
    ensures |s.queue.inflight| <= s.lim.limit
    ensures s.phase == Idle ==> s.lim.locked == Elems(Ids(s.queue.inflight)) && s.lim.used == |s.queue.inflight|
  {
    NoDupCard(InUse(s));
    assert InUse(s)[..|s.queue.inflight|] == Ids(s.queue.inflight);
  }

  /** Over every run of an honest client: client and server agree on the unfinished messages in every state exactly
      when no in-flight message is ever dropped. Then the window above is the client's as well. */
  lemma {:induction false} AgreementIsExact(c: Config, states: seq<Session>, events: seq<Event>, n: nat)
    requires Behaviour(c, states, events) && n <= |events|
    ensures AlwaysInStep(states, n) <==> NoDrops(c, states, events, n)
    ensures NoDrops(c, states, events, n) ==> Inv(states[n]) && NoneHeld(states, events, n)
  {
    if n == 0 {
      InitInv(c, states[0]);
    } else {
      AgreementIsExact(c, states, events, n - 1);
      OneMore(c, states, events, n);
      assert StepAt(c, states, events, n - 1);
      hide Step, Behaviour, Drops, InStep, Inv, AlwaysInStep, NoDrops, NoneHeld, Honest;
      if NoDrops(c, states, events, n - 1) {
        StepIsExact(c, states[n - 1], events[n - 1], states[n]);
        HonestIsNotHeld(states[n - 1], events[n - 1]);
      }
    }
  }

  ghost predicate AlwaysInStep(states: seq<Session>, n: nat)
    requires n < |states|
  {
    forall i: nat :: i <= n ==> InStep(states[i])
  }

  lemma OneMore(c: Config, states: seq<Session>, events: seq<Event>, n: nat)
    requires 0 < n <= |events| && |states| == |events| + 1
    ensures AlwaysInStep(states, n) <==> AlwaysInStep(states, n - 1) && InStep(states[n])
    ensures AlwaysInStep(states, n - 1) ==> InStep(states[n - 1])
    ensures NoDrops(c, states, events, n) <==>
            NoDrops(c, states, events, n - 1) && !Drops(c, states[n - 1], events[n - 1])
    ensures NoneHeld(states, events, n) <==>
            NoneHeld(states, events, n - 1) &&
            (events[n - 1].Finished? ==> events[n - 1].id !in Held(states[n - 1].phase))
  {
    hide Drops, InStep, Held;
  }

  lemma HonestIsNotHeld(s: Session, e: Event)
    requires Inv(s) && InStep(s) && Honest(s, e)
    ensures e.Finished? ==> e.id !in Held(s.phase)
  {
    InflightDistinct(s);
    assert e.Finished? ==> e.id in Ids(s.queue.inflight);
  }

  /** The ids of a read are new to the server, and to the client as well while the views agree. */
  lemma SentIdsAreUnused(c: Config, s: Session, now: nat, s': Session)
    requires Inv(s) && Step(c, s, Read(now), s')
    ensures var sent := Ids(NeedAck(ReadNew(s.queue, s.phase.ids, now, c.ttl).0));
            && NoDup(sent) && (forall id :: id in sent ==> L.IsPacketID(id) && id !in Ids(s.queue.inflight))
            && (InStep(s) ==> forall id :: id in sent ==> id !in s.outstanding)
  {
    InflightDistinct(s);
    var used := Ids(NeedAck(ReadNew(s.queue, s.phase.ids, now, c.ttl).0));
    ReadUsesPrefix(s.queue.unread, s.phase.ids, ReadCount(s.queue, s.phase.ids), now, c.ttl);
    hide Ids, ReadUnread, NeedAck;
    forall id | id in used ensures L.IsPacketID(id) && id in Held(s.phase) {
      HeldIsLocked(s, id);
    }
  }

  // ---- how far the client can be overrun ----

  const TINY := Config(1, 1, 1)

  const MESSAGE := Entry(0, 1, 0, false)

  /** One message waits for the free id `pid`. */
  ghost predicate Waiting(s: Session, pid: int) {
    && L.IsPacketID(pid) && s.lim == L.State(0, 1, false, pid, {}) && s.phase == Idle
    && s.queue == Queue([], [MESSAGE], true)
  }

  /** It is in flight. */
  ghost predicate OnItsWay(s: Session, pid: int) {
    && L.IsPacketID(pid) && s.lim == L.State(1, 1, false, L.NextPid(pid), {pid}) && s.phase == Idle
    && s.queue == Queue([Entry(pid, 1, s.clock + 1, false)], [], true)
  }

  lemma Extend(c: Config, states: seq<Session>, events: seq<Event>, e: Event, s: Session)
    requires Behaviour(c, states, events) && Step(c, states[|events|], e, s) && !e.Finished?
    ensures Behaviour(c, states + [s], events + [e])
  {
    hide Step, Behaviour;
    ExtendHonest(c, states, events, e, s);
  }

  lemma ExtendHonest(c: Config, states: seq<Session>, events: seq<Event>, e: Event, s: Session)
    requires Behaviour(c, states, events) && Step(c, states[|events|], e, s) && Honest(states[|events|], e)
    ensures Behaviour(c, states + [s], events + [e])
  {
    var states', events' := states + [s], events + [e];
    hide Step, Init;
    forall i: nat | i < |events'| ensures StepAt(c, states', events', i) {
      if i < |events| { assert StepAt(c, states, events, i); }
    }
  }

  lemma ReadFirst(unread: seq<Entry>, ids: seq<int>, n: nat, now: nat)
    requires |unread| == |ids| == n == 1 && unread[0].qos != 0 && unread[0].expiry == 0 && !unread[0].tooBig
    ensures ReadUnread(unread, ids, n, now, 1) == ([Sent(unread[0], ids[0], now, 1)], [])
  {
    var first := Sent(unread[0], ids[0], now, 1);
    assert unread[1..] == [] && [first] + [] == [first];
    var (elems, rest) := ReadUnread(unread[1..], ids[1..], n - 1, now, 1);
    assert elems == [] && rest == unread[1..];
    assert ReadUnread(unread, ids, n, now, 1) == ([first] + elems, rest);
  }

  lemma ReadOne(e: Entry, id: int, now: nat)
    requires e.qos != 0 && e.expiry == 0 && !e.tooBig
    ensures ReadUnread([e], [id], 1, now, 1) == ([Sent(e, id, now, 1)], [])
  {
    ReadFirst([e], [id], 1, now);
  }

  lemma SendOne(s: Session, pid: int) returns (es: seq<Event>, ss: seq<Session>)
    requires Waiting(s, pid)
    ensures |es| == |ss| == 3 && Step(TINY, s, es[0], ss[0]) && Step(TINY, ss[0], es[1], ss[1])
    ensures Step(TINY, ss[1], es[2], ss[2]) && es[0].Poll? && es[1].Read? && es[2].ReleaseRest?
    ensures OnItsWay(ss[2], pid) && ss[2].outstanding == s.outstanding + multiset{pid} && ss[2].clock == s.clock
  {
    var sent := Entry(pid, 1, s.clock + 1, false);
    var a := s.(lim := L.State(1, 1, false, L.NextPid(pid), {pid}), phase := Holding([pid]));
    assert L.Polled(s.lim, 1, [pid], a.lim) by { assert Elems([pid]) == {pid}; }
    ReadOne(MESSAGE, pid, s.clock);
    assert NeedAck([sent]) == [sent] && Ids([sent]) == [pid] by { assert [sent][1..] == []; }
    var b := a.(queue := Queue([sent], [], true), outstanding := s.outstanding + multiset{pid}, phase := Leftover([]));
    assert [] + [sent] == [sent] && [pid][1..] == [];
    es := [Poll([pid]), Read(s.clock), ReleaseRest];
    ss := [a, b, b.(phase := Idle)];
  }

  /** With a receive maximum of one and a client that acknowledges nothing, the number of unfinished messages it was
      sent grows without bound: the server drops them one by one from its full queue. */
  lemma {:induction false} OverrunGrows(n: nat) returns (states: seq<Session>, events: seq<Event>)
    ensures Behaviour(TINY, states, events) && OnItsWay(states[|events|], L.CyclePid(n))
    ensures |states[|events|].outstanding| == n + 1
    ensures forall k: nat :: k <= n ==> L.CyclePid(k) in states[|events|].outstanding
    ensures forall id :: id in states[|events|].outstanding ==> L.IsPacketID(id)
  {
    var e: Event, s: Session;
    if n == 0 {
      states, events, e, s := FirstOverrun();
    } else {
      states, events := OverrunGrows(n - 1);
      e, s := NextOverrun(states[|events|], L.CyclePid(n - 1));
      L.NextInCycle(n - 1);
    }
    hide Step, Behaviour, Waiting, OnItsWay, L.NextPid;
    Extend(TINY, states, events, e, s);
    var es, ss := SendOne(s, L.CyclePid(n));
    states, events := states + [s], events + [e];
    Extend(TINY, states, events, es[0], ss[0]);
    Extend(TINY, states + [ss[0]], events + [es[0]], es[1], ss[1]);
    Extend(TINY, states + [ss[0]] + [ss[1]], events + [es[0]] + [es[1]], es[2], ss[2]);
    states, events := states + [ss[0]] + [ss[1]] + [ss[2]], events + [es[0]] + [es[1]] + [es[2]];
  }

  /** The client is sent more messages than there are ids: two unfinished ones go by the same id. */
  lemma {:induction false} OverrunRepeatsIds(n: nat) returns (states: seq<Session>, events: seq<Event>, id: int)
    requires n >= L.MaxPacketID
    ensures Behaviour(TINY, states, events) && |states[|events|].outstanding| == n + 1
    ensures states[|events|].outstanding[id] >= 2
  {
    states, events := OverrunGrows(n);
    id := IdsRepeat(states[|events|].outstanding);
  }

  /** Then an honest acknowledgement breaks the accounting: the loop has just been given an id that the client has
      an unfinished message for, and the client finishes that message. */
  lemma {:induction false} HonestAckBreaks() returns (states: seq<Session>, events: seq<Event>)
    ensures Behaviour(TINY, states, events) && !Inv(states[|events|])
  {
    var last: nat := L.MaxPacketID;
    states, events := OverrunGrows(last - 1);
    L.NextInCycle(last - 1);
    var id := L.CyclePid(last);
    assert id == L.CyclePid(0);
    var e, s := NextOverrun(states[|events|], L.CyclePid(last - 1));
    Extend(TINY, states, events, e, s);
    states, events := states + [s], events + [e];
    assert id in s.outstanding;
    var polled := s.(lim := L.State(1, 1, false, L.NextPid(id), {id}), phase := Holding([id]));
    assert L.Polled(s.lim, 1, [id], polled.lim) by { assert Elems([id]) == {id}; }
    Extend(TINY, states, events, Poll([id]), polled);
    states, events := states + [polled], events + [Poll([id])];
    var acked := polled.(lim := L.Release(polled.lim, id), queue := Removed(polled.queue, id),
                         outstanding := polled.outstanding - multiset{id});
    ExtendHonest(TINY, states, events, Finished(id), acked);
    states, events := states + [acked], events + [Finished(id)];
    assert InUse(acked)[0] == id;
    Unlocked(acked, id);
  }

  lemma FirstOverrun() returns (states: seq<Session>, events: seq<Event>, e: Event, s: Session)
    ensures Behaviour(TINY, states, events) && Step(TINY, states[|events|], e, s) && e.Queued?
    ensures Waiting(s, L.CyclePid(0)) && s.outstanding == multiset{}
  {
    var s0 := Session(L.State(0, 1, false, 1, {}), Queue([], [], false), multiset{}, Idle, 0);
    var s1 := s0.(queue := Queue([], [], true));
    Extend(TINY, [s0], [], Drain, s1);
    states, events := [s0] + [s1], [] + [Drain];
    e, s := Queued(MESSAGE, 0), s1.(queue := Queue([], [MESSAGE], true));
    assert [] + [MESSAGE] == [MESSAGE];
  }

  lemma NextOverrun(s: Session, pid: int) returns (e: Event, s': Session)
    requires OnItsWay(s, pid)
    ensures Step(TINY, s, e, s') && e.Queued? && Drops(TINY, s, e)
    ensures Waiting(s', L.NextPid(pid)) && s'.outstanding == s.outstanding
  {
    e := Queued(MESSAGE, s.clock + 2);
    s' := s.(lim := L.State(0, 1, false, L.NextPid(pid), {}), queue := Queue([], [MESSAGE], true),
             clock := s.clock + 2);
    assert [] + [MESSAGE] == [MESSAGE] && {pid} - {pid} == {};
  }

  /** More unfinished messages than there are ids: two of them go by the same one. */
  lemma IdsRepeat(m: multiset<int>) returns (id: int)
    requires |m| > L.MaxPacketID && forall x :: x in m ==> L.IsPacketID(x)
    ensures m[id] >= 2
  {
    var s := set x | x in m;
    if forall x :: x in m ==> m[x] < 2 {
      assert m == multiset(s);
      L.IdsUpToCard(L.MaxPacketID);
      SubsetCard(s, L.IdsUpTo(L.MaxPacketID));
      assert false;
    }
    id :| id in m && m[id] >= 2;
  }

  // ---- the oldest message expires first ----

  lemma StepKeepsOrder(c: Config, s: Session, e: Event, s': Session)
    requires InOrder(s.queue, s.clock, c.ttl) && Step(c, s, e, s') && c.ttl != 0
    ensures InOrder(s'.queue, s'.clock, c.ttl)
  {
    hide InOrder;
    match e {
      case Read(now) => ReadKeepsOrder(s.queue, s.phase.ids, s.clock, now, c.ttl);
      case Queued(elem, now) => AddKeepsOrder(s.queue, elem, c.max, s.clock, now, c.ttl);
      case Finished(id) => RemoveKeepsOrder(s.queue, id, s.clock, c.ttl);
      case PubrecOk(id) => ReplaceKeepsOrder(s.queue, id, s.clock, c.ttl);
      case Drain => DrainKeepsOrder(s.queue, s.clock, c.ttl);
      case _ =>
    }
  }

  lemma DrainKeepsOrder(q: Queue, clock: nat, ttl: nat)
    requires InOrder(q, clock, ttl)
    ensures InOrder(q.(drained := true), clock, ttl)
  {
  }

  /** In every run, when a full queue holds an expired in-flight message, the documented first priority to drop one is
      met exactly when the oldest in-flight message is expired; with an in-flight lifetime that is when the oldest is
      not a PUBREL. */
  lemma {:induction false} FirstPriorityInRuns(c: Config, states: seq<Session>, events: seq<Event>, n: nat,
                                               elem: Entry, now: nat)
    requires Behaviour(c, states, events) && n < |states|
    ensures c.ttl != 0 ==> InOrder(states[n].queue, states[n].clock, c.ttl)
    ensures Full(states[n].queue, c.max) && SomeExpired(states[n].queue, now) ==>
            (Choose(states[n].queue, elem, c.max, now).Oldest? <==> Expired(states[n].queue.inflight[0], now))
    ensures Full(states[n].queue, c.max) && SomeExpired(states[n].queue, now) && c.ttl != 0 ==>
            (Choose(states[n].queue, elem, c.max, now).Oldest? <==> states[n].queue.inflight[0].expiry != 0)
  {
    if n > 0 && c.ttl != 0 {
      FirstPriorityInRuns(c, states, events, n - 1, elem, now);
      assert StepAt(c, states, events, n - 1);
      StepKeepsOrder(c, states[n - 1], events[n - 1], states[n]);
    }
    if Full(states[n].queue, c.max) && SomeExpired(states[n].queue, now) {
      FirstPriorityIsExact(states[n].queue, elem, c.max, now);
    }
  }

  /** Without an in-flight lifetime a PUBLISH can be kept by its own expiry time: the one that expires late was read
      first, the one that expires early is expired, and the full queue drops neither. */
  lemma {:induction false} OwnExpiryBlocks(early: nat, late: nat, now: nat, elem: Entry)
    returns (states: seq<Session>, events: seq<Event>)
    requires 0 < early < now <= late
    ensures Behaviour(Config(2, 0, 2), states, events)
    ensures var q := states[|events|].queue;
            && Full(q, 2) && SomeExpired(q, now) && q.inflight[0].expiry != 0
            && !Choose(q, elem, 2, now).Oldest?
  {
    var a, b := Entry(0, 1, late, false), Entry(0, 1, early, false);
    states, events := TwoWaiting(a, b);
    var polled, read, released := SendTwo(states[|events|], a, b);
    hide Step, Behaviour, TwoUnread;
    var c := Config(2, 0, 2);
    Extend(c, states, events, Poll([1, 2]), polled);
    Extend(c, states + [polled], events + [Poll([1, 2])], Read(0), read);
    Extend(c, states + [polled] + [read], events + [Poll([1, 2])] + [Read(0)], ReleaseRest, released);
    states := states + [polled] + [read] + [released];
    events := events + [Poll([1, 2])] + [Read(0)] + [ReleaseRest];
    assert Expired(released.queue.inflight[1], now);
  }

  ghost predicate TwoUnread(s: Session, a: Entry, b: Entry) {
    && s.lim == L.State(0, 2, false, 1, {}) && s.queue == Queue([], [a, b], true)
    && s.phase == Idle && s.clock == 0
  }

  lemma TwoWaiting(a: Entry, b: Entry) returns (states: seq<Session>, events: seq<Event>)
    requires a.id == 0 == b.id
    ensures Behaviour(Config(2, 0, 2), states, events) && TwoUnread(states[|events|], a, b)
  {
    var c := Config(2, 0, 2);
    var s0 := Session(L.State(0, 2, false, 1, {}), Queue([], [], false), multiset{}, Idle, 0);
    var s1 := s0.(queue := Queue([], [], true));
    var s2 := s1.(queue := Queue([], [a], true));
    var s3 := s2.(queue := Queue([], [a, b], true));
    assert [] + [a] == [a] && [a] + [b] == [a, b];
    Extend(c, [s0], [], Drain, s1);
    Extend(c, [s0] + [s1], [] + [Drain], Queued(a, 0), s2);
    Extend(c, [s0] + [s1] + [s2], [] + [Drain] + [Queued(a, 0)], Queued(b, 0), s3);
    states, events := [s0] + [s1] + [s2] + [s3], [] + [Drain] + [Queued(a, 0)] + [Queued(b, 0)];
  }

  lemma SendTwo(s: Session, a: Entry, b: Entry) returns (polled: Session, read: Session, released: Session)
    requires TwoUnread(s, a, b) && a.qos != 0 && b.qos != 0 && !a.tooBig && !b.tooBig
    requires !Expired(a, 0) && !Expired(b, 0)
    ensures Step(Config(2, 0, 2), s, Poll([1, 2]), polled) && Step(Config(2, 0, 2), polled, Read(0), read)
    ensures Step(Config(2, 0, 2), read, ReleaseRest, released)
    ensures released.queue == Queue([a.(id := 1), b.(id := 2)], [], true)
  {
    var sent := [a.(id := 1), b.(id := 2)];
    polled := s.(lim := L.State(2, 2, false, 3, {1, 2}), phase := Holding([1, 2]));
    PollTwo(s.lim, polled.lim);
    read := polled.(queue := Queue(sent, [], true), outstanding := s.outstanding + multiset([1, 2]),
                    phase := Leftover([]));
    ReadStep(polled, a, b, read);
    released := read.(phase := Idle);
    hide ReadNew, ReadUnread, NeedAck, Ids, L.Polled;
  }

  lemma ReadStep(s: Session, a: Entry, b: Entry, s': Session)
    requires s.phase == Holding([1, 2]) && s.queue == Queue([], [a, b], true) && s.clock == 0
    requires a.qos != 0 && b.qos != 0 && !a.tooBig && !b.tooBig && !Expired(a, 0) && !Expired(b, 0)
    requires s' == s.(queue := Queue([a.(id := 1), b.(id := 2)], [], true),
                      outstanding := s.outstanding + multiset([1, 2]), phase := Leftover([]))
    ensures Step(Config(2, 0, 2), s, Read(0), s')
  {
    var sent := [a.(id := 1), b.(id := 2)];
    ReadTwo(a, b, 1, 2);
    hide ReadUnread, NeedAck, Ids;
    assert [] + sent == sent && [1, 2][2..] == [];
    assert ReadNew(s.queue, [1, 2], 0, 0) == (sent, Queue(sent, [], true));
  }

  lemma PollTwo(lim: L.State, lim': L.State)
    requires lim == L.State(0, 2, false, 1, {}) && lim' == L.State(2, 2, false, 3, {1, 2})
    ensures L.Polled(lim, 2, [1, 2], lim')
  {
    assert Elems([1, 2]) == {1, 2};
  }

  lemma ReadTwo(a: Entry, b: Entry, i: int, j: int)
    requires a.qos != 0 && b.qos != 0 && !a.tooBig && !b.tooBig
    ensures ReadUnread([a, b], [i, j], 2, 0, 0) == ([a.(id := i), b.(id := j)], [])
    ensures NeedAck([a.(id := i), b.(id := j)]) == [a.(id := i), b.(id := j)]
    ensures Ids([a.(id := i), b.(id := j)]) == [i, j]
  {
    var x, y := a.(id := i), b.(id := j);
    assert [a, b][1..] == [b] && [i, j][1..] == [j] && [x, y][1..] == [y];
    ReadLast(b, j);
    assert [x] + [y] == [x, y];
    OneSent(y);
  }

  lemma OneSent(e: Entry)
    requires e.qos != 0
    ensures NeedAck([e]) == [e] && Ids([e]) == [e.id]
  {
    assert [e][1..] == [];
    assert Ids([e][1..]) == [] && NeedAck([e][1..]) == [];
  }

  lemma ReadLast(b: Entry, j: int)
    requires b.qos != 0 && !b.tooBig
    ensures ReadUnread([b], [j], 1, 0, 0) == ([b.(id := j)], [])
  {
    var unread, ids := [b], [j];
    var (elems, rest) := ReadUnread(unread[1..], ids[1..], 0, 0, 0);
    assert elems == [] && rest == unread[1..] == [] && [b.(id := j)] + [] == [b.(id := j)];
    assert ReadUnread(unread, ids, 1, 0, 0) == ([b.(id := j)] + elems, rest);
  }

  class Client {
    const pl: L.PacketIDLimiter
    const queue: MemQueue
    const maxInflight: nat
    ghost var outstanding: multiset<int>
    ghost var phase: Phase
    ghost var clock: nat

    ghost predicate Valid()
      reads this, pl, queue
    {
      pl.Valid() && queue.Valid() && pl.limit == maxInflight
    }

    ghost function Now(): Session
      reads this, pl, queue
      requires Valid()
    {
      Session(pl.Now(), queue.Now(), outstanding, phase, clock)
    }

    ghost function Conf(): Config {
      Config(queue.max, queue.ttl, maxInflight)
    }

    constructor (maxInflight: nat, max: nat, ttl: nat)
      requires maxInflight <= L.MaxPacketID
      ensures fresh(pl) && fresh(queue) && Valid() && Conf() == Config(max, ttl, maxInflight) && Init(Conf(), Now())
    {
      pl := new L.PacketIDLimiter(maxInflight);
      queue := new MemQueue(max, ttl);
      this.maxInflight := maxInflight;
      outstanding, phase, clock := multiset{}, Idle, 0;
    }

    /** The first step of the loop body of `pollMessageHandler`. */
    method PollIds() returns (ids: seq<int>)
      requires Valid() && phase == Idle && queue.drained && !pl.exit && pl.used < pl.limit
      modifies this, pl
      ensures Valid() && phase == Holding(ids) && Step(Conf(), old(Now()), Poll(ids), Now())
      ensures |ids| <= 100 && |ids| <= maxInflight - old(pl.used)
      ensures |ids| in {100, maxInflight, maxInflight - old(pl.used)}
    {
      var max := 100;
      if maxInflight < max {
        max := maxInflight;
      }
      ids := pl.PollPacketIDs(max);
      phase := Holding(ids);
    }

    /** `pollNewMessages`: writes what was read and drops one id per message that needs one. */
    method PollNewMessages(ids: seq<int>, now: nat) returns (unused: seq<int>, ghost sent: seq<Entry>)
      requires Valid() && phase == Holding(ids) && queue.drained && queue.current < |queue.list| && clock <= now
      modifies this, queue
      ensures Valid() && phase == Leftover(unused) && Step(Conf(), old(Now()), Read(now), Now())
      ensures sent == ReadNew(old(queue.Now()), ids, now, queue.ttl).0
    {
      ReadUsesPrefix(queue.Now().unread, ids, ReadCount(queue.Now(), ids), now, queue.ttl);
      var elems := queue.Read(ids, now);
      sent := elems;
      unused := Reslice(elems, ids);
      outstanding := outstanding + multiset(Ids(NeedAck(elems)));
      phase, clock := Leftover(unused), now;
    }

    /** The loop of `pollNewMessages`: one id less per message that needs one. */
    method Reslice(elems: seq<Entry>, ids: seq<int>) returns (unused: seq<int>)
      requires |NeedAck(elems)| <= |ids|
      ensures unused == ids[|NeedAck(elems)|..]
    {
      unused := ids;
      for i := 0 to |elems|
        invariant |NeedAck(elems[..i])| <= |ids| && unused == ids[|NeedAck(elems[..i])|..]
      {
        NeedAckAppend(elems[..i], elems[i]);
        assert elems[..i + 1] == elems[..i] + [elems[i]];
        NeedAckPrefix(elems, i + 1);
        if elems[i].qos != 0 {
          unused := unused[1..];
        }
      }
      assert elems[..|elems|] == elems;
    }

    /** `batchRelease` of what the read did not use. */
    method ReleaseUnused(ids: seq<int>)
      requires Valid() && phase == Leftover(ids)
      modifies this, pl
      ensures Valid() && phase == Idle && Step(Conf(), old(Now()), ReleaseRest, Now())
      ensures pl.lockedPid == old(pl.lockedPid) - Elems(ids)
    {
      L.ReleaseAllMeans(pl.Now(), ids);
      pl.BatchRelease(ids);
      phase := Idle;
    }

    /** `pubackHandler`, `pubcompHandler` and the error branch of `pubrecHandler`. */
    method Finish(id: int)
      requires Valid()
      modifies this, pl, queue
      ensures Valid() && Step(Conf(), old(Now()), Finished(id), Now())
      ensures queue.Now() == Removed(old(queue.Now()), id) && pl.lockedPid == old(pl.lockedPid) - {id}
    {
      queue.Remove(id);
      pl.ReleaseId(id);
      outstanding := outstanding - multiset{id};
    }

    /** The other branch of `pubrecHandler`. */
    method Pubrec(id: int)
      requires Valid()
      modifies queue
      ensures Valid() && Step(Conf(), old(Now()), PubrecOk(id), Now())
      ensures queue.Now() == Replaced(old(queue.Now()), id)
    {
      var replaced := queue.Replace(id);
    }

    /** `Queue.Add`, and the notifier, which releases the id of an expired in-flight message that was dropped. */
    method Deliver(elem: Entry, now: nat)
      requires Valid() && elem.id == 0 && clock <= now
      modifies this, pl, queue
      ensures Valid() && Step(Conf(), old(Now()), Queued(elem, now), Now())
      ensures var q, full := old(queue.Now()), |old(queue.list)| >= queue.max;
              && (if full then DropsByPriority(q, elem, now, queue.Now())
                  else queue.Now() == q.(unread := q.unread + [elem]))
              && pl.lockedPid == old(pl.lockedPid) -
                   if full && OldestExpired(q, now) then {q.inflight[0].id} else {}
    {
      var front := if queue.list == [] then elem else queue.list[0];
      var victim := queue.Add(elem, now);
      if victim.Oldest? {
        pl.ReleaseId(front.id);
      }
      clock := now;
    }
  }

  lemma {:induction false} NeedAckPrefix(a: seq<Entry>, i: nat)
    requires i <= |a|
    ensures |NeedAck(a[..i])| <= |NeedAck(a)|
    decreases |a| - i
  {
    if i < |a| {
      NeedAckPrefix(a, i + 1);
      NeedAckAppend(a[..i], a[i]);
      assert a[..i + 1] == a[..i] + [a[i]];
    } else {
      assert a[..i] == a;
    }
  }
}
