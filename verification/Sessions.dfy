/** The session maps of gmqtt/server/server.go: connecting, disconnecting, expiring and terminating sessions. */
module Sessions {
  type ClientID = string

  const SECOND := 1_000_000_000

  datatype Option<T> = None | Some(value: T)

  /** Times are in nanoseconds, the expiry interval in seconds. */
  datatype Session = Session(expiry: nat, connectedAt: int)

  /** `clients` holds the connection of each online client, `offline` the expiry time of each stored session.
      A queue or unack store is known by a number that is never given twice. */
  datatype Broker = Broker(sessions: map<ClientID, Session>, clients: map<ClientID, int>, offline: map<ClientID, int>,
                           queues: map<ClientID, nat>, unacks: map<ClientID, nat>, next: nat)

  /** One locked step. `seen` is the session that `lockDuplicatedID` read, perhaps before the lock was taken again;
      `override` is the expiry interval of an MQTT 5 DISCONNECT. */
  datatype Event =
    | Register(id: ClientID, seen: Option<Session>, now: int, at: int, cleanStart: bool, expiry: nat, connection: int)
    | Unregister(id: ClientID, now: int, force: bool, override: Option<nat>)
    | ExpireCheck(now: int)
    | Terminate(id: ClientID)
    | SetExpiry(id: ClientID, expiry: nat)

  /** When an interval that starts at `from` ends. */
  function Deadline(from: int, expiry: nat): int {
    from + expiry * SECOND
  }

  predicate IsExpired(s: Session, now: int) {
    Deadline(s.connectedAt, s.expiry) < now
  }

  /** `removeSessionLocked` for every one of `ids`; the unack stores stay behind. */
  function Without(b: Broker, ids: set<ClientID>): Broker {
    b.(sessions := b.sessions - ids, clients := b.clients - ids, offline := b.offline - ids, queues := b.queues - ids)
  }

  predicate WantsResume(e: Event)
    requires e.Register?
  {
    e.seen.Some? && !IsExpired(e.seen.value, e.now) && !e.cleanStart
  }

  predicate Resumes(b: Broker, e: Event)
    requires e.Register?
  {
    WantsResume(e) && e.id in b.queues && e.id in b.unacks
  }

  function AfterRegister(b: Broker, e: Event): Broker
    requires e.Register?
  {
    var resumed := Resumes(b, e);
    b.(sessions := b.sessions[e.id := Session(e.expiry, e.at)],
       clients := b.clients[e.id := e.connection],
       offline := b.offline - {e.id},
       queues := if resumed then b.queues else b.queues[e.id := b.next],
       unacks := if resumed then b.unacks else b.unacks[e.id := b.next],
       next := if resumed then b.next else b.next + 1)
  }

  /** The interval that decides whether a closed connection leaves a session behind. */
  function KeptFor(b: Broker, e: Event): nat
    requires e.Unregister? && e.id in b.sessions
  {
    if e.force || e.override.None? then b.sessions[e.id].expiry else e.override.value
  }

  predicate Stores(b: Broker, e: Event)
    requires e.Unregister?
  {
    e.id in b.sessions && !e.force && KeptFor(b, e) != 0
  }

  function AfterUnregister(b: Broker, e: Event): Broker
    requires e.Unregister?
  {
    if Stores(b, e) then
      b.(sessions := b.sessions[e.id := b.sessions[e.id].(expiry := KeptFor(b, e))],
         clients := b.clients - {e.id},
         offline := b.offline[e.id := Deadline(e.now, KeptFor(b, e))])
    else Without(b, {e.id})
  }

  function Overdue(b: Broker, now: int): set<ClientID> {
    set id | id in b.offline && now > b.offline[id]
  }

  function After(b: Broker, e: Event): Broker {
    match e
    case Register(_, _, _, _, _, _, _) => AfterRegister(b, e)
    case Unregister(_, _, _, _) => AfterUnregister(b, e)
    case ExpireCheck(now) => Without(b, Overdue(b, now))
    case Terminate(id) => if id !in b.clients && id in b.offline then Without(b, {id}) else b
    case SetExpiry(id, expiry) =>
      if id in b.sessions then b.(sessions := b.sessions[id := b.sessions[id].(expiry := expiry)]) else b
  }

  /** When `lockDuplicatedID` found no session it kept the lock, so there is none now either. */
  predicate Possible(b: Broker, e: Event) {
    e.Register? && e.seen.None? ==> e.id !in b.sessions
  }

  /** Every stored session is either online or offline and has a queue and an unack store. */
  ghost predicate MapsAgree(b: Broker) {
    KeysAgree(b.sessions.Keys, b.clients.Keys, b.offline.Keys, b.queues.Keys, b.unacks.Keys)
  }

  ghost predicate KeysAgree(sessions: set<ClientID>, online: set<ClientID>, offline: set<ClientID>,
                            queues: set<ClientID>, unacks: set<ClientID>) {
    online !! offline && online + offline == sessions && queues == sessions && sessions <= unacks
  }

  /** No two clients share a store, and the next number is unused. */
  ghost predicate Numbered(stores: map<ClientID, nat>, next: nat) {
    && (forall id :: id in stores ==> stores[id] < next)
    && (forall i, j :: i in stores && j in stores && stores[i] == stores[j] ==> i == j)
  }

  ghost predicate Inv(b: Broker) {
    MapsAgree(b) && Numbered(b.queues, b.next) && Numbered(b.unacks, b.next)
  }

  const Empty := Broker(map[], map[], map[], map[], map[], 0)

  lemma {:induction false} StepKeepsInv(b: Broker, e: Event)
    requires Inv(b) && Possible(b, e)
    ensures Inv(After(b, e))
  {
    match e {
      case Register(_, _, _, _, _, _, _) =>
        RegisterKeepsMaps(b, e);
        hide MapsAgree, Numbered;
        NumberedAdd(b.queues, e.id, b.next);
        NumberedAdd(b.unacks, e.id, b.next);
      case Unregister(_, _, _, _) =>
        if Stores(b, e) {
          StoreKeepsMaps(b, e);
          hide MapsAgree, Numbered;
        } else {
          WithoutKeepsInv(b, {e.id});
          hide Inv;
        }
      case ExpireCheck(now) => WithoutKeepsInv(b, Overdue(b, now));
      case Terminate(id) => WithoutKeepsInv(b, {id});
      case SetExpiry(id, _) =>
        assert id in b.sessions ==> After(b, e).sessions.Keys == b.sessions.Keys;
        hide Numbered;
    }
  }

  lemma RegisterKeepsMaps(b: Broker, e: Event)
    requires MapsAgree(b) && e.Register?
    ensures MapsAgree(AfterRegister(b, e))
  {
    var c := AfterRegister(b, e);
    assert c.queues.Keys == b.queues.Keys + {e.id} && c.unacks.Keys == b.unacks.Keys + {e.id};
    hide Resumes;
    assert c.sessions.Keys == b.sessions.Keys + {e.id} && c.clients.Keys == b.clients.Keys + {e.id};
    assert c.offline.Keys == b.offline.Keys - {e.id};
  }

  lemma StoreKeepsMaps(b: Broker, e: Event)
    requires MapsAgree(b) && e.Unregister? && Stores(b, e)
    ensures MapsAgree(AfterUnregister(b, e))
  {
    var c := AfterUnregister(b, e);
    assert c.sessions.Keys == b.sessions.Keys && c.clients.Keys == b.clients.Keys - {e.id};
    assert c.offline.Keys == b.offline.Keys + {e.id};
  }

  lemma NumberedAdd(stores: map<ClientID, nat>, id: ClientID, next: nat)
    requires Numbered(stores, next)
    ensures Numbered(stores[id := next], next + 1)
  {
  }

  lemma NumberedWithout(stores: map<ClientID, nat>, ids: set<ClientID>, next: nat)
    requires Numbered(stores, next)
    ensures Numbered(stores - ids, next)
  {
  }

  lemma KeysWithout<V>(m: map<ClientID, V>, ids: set<ClientID>)
    ensures (m - ids).Keys == m.Keys - ids
  {
  }

  lemma KeysAgreeWithout(sessions: set<ClientID>, online: set<ClientID>, offline: set<ClientID>,
                         queues: set<ClientID>, unacks: set<ClientID>, ids: set<ClientID>)
    requires KeysAgree(sessions, online, offline, queues, unacks)
    ensures KeysAgree(sessions - ids, online - ids, offline - ids, queues - ids, unacks)
  {
  }

  lemma WithoutKeepsInv(b: Broker, ids: set<ClientID>)
    requires Inv(b)
    ensures Inv(Without(b, ids))
  {
    hide Numbered, KeysAgree;
    NumberedWithout(b.queues, ids, b.next);
    KeysAgreeWithout(b.sessions.Keys, b.clients.Keys, b.offline.Keys, b.queues.Keys, b.unacks.Keys, ids);
    KeysWithout(b.sessions, ids);
    KeysWithout(b.clients, ids);
    KeysWithout(b.offline, ids);
    KeysWithout(b.queues, ids);
  }

  function At(events: seq<Event>): Broker
    decreases |events|
  {
    if events == [] then Empty else After(At(events[..|events| - 1]), events[|events| - 1])
  }

  ghost predicate Run(events: seq<Event>) {
    forall k :: 0 <= k < |events| ==> Possible(At(events[..k]), events[k])
  }

  lemma AtStep(events: seq<Event>, k: nat)
    requires k < |events|
    ensures At(events[..k + 1]) == After(At(events[..k]), events[k])
  {
    assert events[..k + 1][..k] == events[..k];
  }

  /** The maps agree after every step of every run. */
  lemma {:induction false} EveryRunKeepsInv(events: seq<Event>, k: nat)
    requires Run(events) && k <= |events|
    ensures Inv(At(events[..k]))
  {
    if k > 0 {
      EveryRunKeepsInv(events, k - 1);
      AtStep(events, k - 1);
      StepKeepsInv(At(events[..k - 1]), events[k - 1]);
    } else {
      assert events[..0] == [];
    }
  }

  /** The "inconsistent session state" branch: a resume is wanted but a store is missing. */
  predicate Inconsistent(b: Broker, e: Event)
    requires e.Register?
  {
    WantsResume(e) && !Resumes(b, e)
  }

  /** The branch is taken exactly when the session seen has vanished before the lock was taken again. */
  lemma InconsistentIsExact(events: seq<Event>, k: nat)
    requires Run(events) && k < |events| && events[k].Register?
    ensures var b, e := At(events[..k]), events[k];
            Inconsistent(b, e) <==> WantsResume(e) && e.id !in b.sessions
    ensures var b, e := At(events[..k]), events[k];
            e.seen == (if e.id in b.sessions then Some(b.sessions[e.id]) else None) ==> !Inconsistent(b, e)
  {
    EveryRunKeepsInv(events, k);
  }

  /** It does happen: an offline session is read, terminated while the lock is released, and then to be resumed. */
  lemma InconsistentHappens(id: ClientID)
    ensures var events := [Register(id, None, 0, 0, false, 10, 1), Unregister(id, 0, false, None), Terminate(id)];
            var back := Register(id, Some(Session(10, 0)), SECOND, SECOND, false, 10, 2);
            && Run(events) && Possible(At(events), back)
            && id in At(events[..2]).sessions && back.seen == Some(At(events[..2]).sessions[id])
            && Inconsistent(At(events), back)
  {
    var first, second := Register(id, None, 0, 0, false, 10, 1), Unregister(id, 0, false, None);
    var events := [first, second, Terminate(id)];
    assert events[..0] == [] && events[..1] == [first] && events[..2] == [first, second];
    assert [first][..0] == [] && [first, second][..1] == [first];
    assert At([first]) == AfterRegister(Empty, first);
    assert At([first, second]) == AfterUnregister(At([first]), second);
    forall k | 0 <= k < |events| ensures Possible(At(events[..k]), events[k]) {}
  }

  /** The step ends the session `id` has: its queue is given up. */
  predicate Ends(b: Broker, e: Event, id: ClientID)
    requires id in b.sessions
  {
    match e
    case Register(_, _, _, _, _, _, _) => e.id == id && !WantsResume(e)
    case Unregister(_, _, _, _) => e.id == id && (e.force || KeptFor(b, e) == 0)
    case ExpireCheck(now) => id in b.offline && b.offline[id] < now
    case Terminate(other) => other == id && id in b.offline
    case SetExpiry(_, _) => false
  }

  predicate Has(b: Broker, id: ClientID, queue: nat) {
    id in b.queues && b.queues[id] == queue
  }

  /** The session of `id` uses an unack store; one that outlives its session is not used. */
  predicate Uses(b: Broker, id: ClientID, unack: nat) {
    id in b.sessions && id in b.unacks && b.unacks[id] == unack
  }

  /** A session goes on, with the same queue and unack store, exactly when the step does not end it. */
  lemma SessionGoesOn(b: Broker, e: Event, id: ClientID)
    requires Inv(b) && Possible(b, e) && id in b.sessions
    ensures Has(After(b, e), id, b.queues[id]) <==> !Ends(b, e, id)
    ensures Uses(After(b, e), id, b.unacks[id]) <==> !Ends(b, e, id)
  {
    assert id in b.queues && id in b.unacks;
    match e {
      case Register(_, _, _, _, _, _, _) =>
        RegisterGoesOn(b, e, id);
      case Unregister(_, _, _, _) =>
        WithoutGoesOn(b, {e.id}, id);
        hide Inv, Without, Deadline;
      case ExpireCheck(now) =>
        WithoutGoesOn(b, Overdue(b, now), id);
        hide Inv, Without;
      case Terminate(other) =>
        WithoutGoesOn(b, {other}, id);
        hide Numbered, Without;
      case SetExpiry(_, _) =>
        hide Inv;
    }
  }

  lemma WithoutGoesOn(b: Broker, ids: set<ClientID>, id: ClientID)
    requires id in b.queues
    ensures Has(Without(b, ids), id, b.queues[id]) <==> id !in ids
    ensures id in Without(b, ids).sessions <==> id in b.sessions && id !in ids
    ensures Without(b, ids).unacks == b.unacks
  {
  }

  lemma RegisterGoesOn(b: Broker, e: Event, id: ClientID)
    requires Inv(b) && Possible(b, e) && id in b.sessions && e.Register?
    ensures Has(After(b, e), id, b.queues[id]) <==> !Ends(b, e, id)
    ensures Uses(After(b, e), id, b.unacks[id]) <==> !Ends(b, e, id)
  {
    assert id in b.queues && id in b.unacks && b.queues[id] < b.next && b.unacks[id] < b.next;
    hide MapsAgree, Numbered, IsExpired;
  }

  /** A queue that no client has and that is not a new one. */
  ghost predicate GivenUp(b: Broker, queue: nat) {
    queue < b.next && forall id :: !Has(b, id, queue)
  }

  lemma NewQueueIsUnused(b: Broker, e: Event, id: ClientID, queue: nat)
    ensures b.next <= After(b, e).next
    ensures Has(After(b, e), id, queue) ==> Has(b, id, queue) || queue == b.next
  {
  }

  lemma StaysGivenUp(b: Broker, e: Event, queue: nat)
    requires GivenUp(b, queue)
    ensures GivenUp(After(b, e), queue)
  {
    hide After, Has;
    NewQueueIsUnused(b, e, "", queue);
    forall id ensures !Has(After(b, e), id, queue) {
      NewQueueIsUnused(b, e, id, queue);
      assert !Has(b, id, queue);
    }
  }

  /** A queue that is given up is never used again, by any client. */
  lemma {:induction false} GoneForGood(events: seq<Event>, j: nat, k: nat, queue: nat)
    requires j <= k <= |events| && GivenUp(At(events[..j]), queue)
    ensures GivenUp(At(events[..k]), queue)
    decreases k
  {
    hide *;
    if j < k {
      GoneForGood(events, j, k - 1, queue);
      AtStep(events, k - 1);
      StaysGivenUp(At(events[..k - 1]), events[k - 1], queue);
    }
  }

  /** A queue belongs to one session from its creation to its end: whenever it is found twice, it is found
      at the same client, which had it all the time between, and no step between ended the session. */
  lemma {:induction false} QueueLifetime(events: seq<Event>, i: nat, j: nat, k: nat, id: ClientID, other: ClientID,
                                         queue: nat)
    requires Run(events) && i <= j <= k <= |events|
    requires Has(At(events[..i]), id, queue) && Has(At(events[..k]), other, queue)
    ensures other == id && Has(At(events[..j]), id, queue)
    ensures j < k ==> id in At(events[..j]).sessions && !Ends(At(events[..j]), events[j], id)
    decreases k - i
  {
    EveryRunKeepsInv(events, i);
    if i < k {
      var b := At(events[..i]);
      AtStep(events, i);
      EveryRunKeepsInv(events, i + 1);
      SessionGoesOn(b, events[i], id);
      if Ends(b, events[i], id) {
        EndGivesUp(b, events[i], id, queue);
        GoneForGood(events, i + 1, k, queue);
      } else {
        QueueLifetime(events, i + 1, if j > i then j else i + 1, k, id, other, queue);
      }
    }
  }

  lemma EndGivesUp(b: Broker, e: Event, id: ClientID, queue: nat)
    requires Inv(b) && Has(b, id, queue) && !Has(After(b, e), id, queue)
    ensures GivenUp(After(b, e), queue)
  {
    forall other ensures !Has(After(b, e), other, queue) && b.next <= After(b, e).next {
      NewQueueIsUnused(b, e, other, queue);
    }
  }

  /** While no step ends it, a session keeps its queue: the converse of `QueueLifetime`. */
  lemma {:induction false} QueueKept(events: seq<Event>, i: nat, k: nat, id: ClientID, queue: nat)
    requires Run(events) && i <= k <= |events| && Has(At(events[..i]), id, queue)
    requires forall j :: i <= j < k && id in At(events[..j]).sessions ==> !Ends(At(events[..j]), events[j], id)
    ensures Has(At(events[..k]), id, queue)
    decreases k - i
  {
    if i < k {
      EveryRunKeepsInv(events, i);
      AtStep(events, i);
      SessionGoesOn(At(events[..i]), events[i], id);
      QueueKept(events, i + 1, k, id, queue);
    }
  }

  // ---- unack stores ----

  /** A connection that does not resume a session gets an unack store, and a queue, that no client has had. */
  lemma RegisterStartsAfresh(b: Broker, e: Event)
    requires Inv(b) && Possible(b, e) && e.Register? && (e.id in b.sessions ==> Ends(b, e, e.id))
    ensures var c := After(b, e);
            && e.id in c.unacks && c.unacks[e.id] !in b.unacks.Values
            && e.id in c.queues && c.queues[e.id] !in b.queues.Values
  {
    hide IsExpired;
  }

  lemma RegisterMeans(b: Broker, e: Event)
    requires Inv(b) && Possible(b, e) && e.Register?
    ensures Resumes(b, e) <==> WantsResume(e) && e.id in b.sessions
    ensures WantsResume(e) <==> e.seen.Some? && !e.cleanStart &&
                                e.now <= e.seen.value.connectedAt + e.seen.value.expiry * 1_000_000_000
    ensures var c := After(b, e);
            !Resumes(b, e) ==> c.unacks[e.id] !in b.unacks.Values && c.queues[e.id] !in b.queues.Values
  {
    if !Resumes(b, e) { RegisterStartsAfresh(b, e); }
  }

  /** In every run the unack store and the queue of a session are made together. */
  lemma {:induction false} StoresGoTogether(events: seq<Event>, k: nat, id: ClientID, store: nat)
    requires Run(events) && k <= |events|
    ensures Uses(At(events[..k]), id, store) <==> Has(At(events[..k]), id, store)
    decreases k
  {
    EveryRunKeepsInv(events, k);
    if k > 0 {
      var b, e := At(events[..k - 1]), events[k - 1];
      AtStep(events, k - 1);
      EveryRunKeepsInv(events, k - 1);
      StoresGoTogether(events, k - 1, id, store);
      if id in b.sessions { StoresGoTogether(events, k - 1, id, b.queues[id]); }
      StepKeepsTogether(b, e, id);
    } else {
      assert events[..0] == [];
    }
  }

  lemma StepKeepsTogether(b: Broker, e: Event, id: ClientID)
    requires Inv(b) && Inv(After(b, e)) && Possible(b, e)
    requires id in b.sessions ==> b.queues[id] == b.unacks[id]
    ensures id in After(b, e).sessions ==> After(b, e).queues[id] == After(b, e).unacks[id]
  {
    hide Numbered, IsExpired, Overdue, KeptFor, Deadline;
  }

  /** An unack store belongs to one session, as a queue does. */
  lemma UnackLifetime(events: seq<Event>, i: nat, j: nat, k: nat, id: ClientID, other: ClientID, unack: nat)
    requires Run(events) && i <= j <= k <= |events|
    requires Uses(At(events[..i]), id, unack) && Uses(At(events[..k]), other, unack)
    ensures other == id && Uses(At(events[..j]), id, unack)
    ensures j < k ==> !Ends(At(events[..j]), events[j], id)
  {
    StoresGoTogether(events, i, id, unack);
    StoresGoTogether(events, k, other, unack);
    StoresGoTogether(events, j, id, unack);
    QueueLifetime(events, i, j, k, id, other, unack);
  }

  /** The unack store of a session that ended is never used again, by any client. */
  lemma UnackGoneForGood(events: seq<Event>, j: nat, k: nat, id: ClientID, other: ClientID, unack: nat)
    requires Run(events) && j < k <= |events|
    requires Uses(At(events[..j]), id, unack) && Ends(At(events[..j]), events[j], id)
    ensures !Uses(At(events[..k]), other, unack)
  {
    if Uses(At(events[..k]), other, unack) {
      UnackLifetime(events, j, j, k, id, other, unack);
    }
  }

  // ---- reconnecting ----

  /** MQTT 5.0 section 3.1.2.11.2 counts the expiry interval from the disconnection, as the expiry check does.
      A reconnection counts it from the time of connecting, so it can find a stored session expired too early. */
  lemma ReconnectIsExact(b: Broker, e: Event)
    requires Inv(b) && e.Register? && e.id in b.sessions && e.seen == Some(b.sessions[e.id]) && !e.cleanStart
    ensures Has(After(b, e), e.id, b.queues[e.id]) <==>
            e.now <= Deadline(b.sessions[e.id].connectedAt, b.sessions[e.id].expiry)
  {
    SessionGoesOn(b, e, e.id);
  }

  /** Connected at 0 with an interval of 10 s, disconnected at 100 s and back at 101 s: the stored session is not
      overdue until 110 s, yet the client gets a new queue. */
  lemma ReconnectLosesStoredSession(id: ClientID)
    ensures var events := [Register(id, None, 0, 0, false, 10, 1), Unregister(id, 100 * SECOND, false, None)];
            var back := Register(id, Some(Session(10, 0)), 101 * SECOND, 101 * SECOND, false, 10, 2);
            var b := At(events);
            && Run(events) && Possible(b, back) && id in b.offline && id !in Overdue(b, 101 * SECOND)
            && b.sessions[id] == Session(10, 0)
            && !Has(After(b, back), id, b.queues[id])
  {
    var first := Register(id, None, 0, 0, false, 10, 1);
    var events := [first, Unregister(id, 100 * SECOND, false, None)];
    assert events[..1] == [first] && [first][..0] == [] && events[..0] == [];
    assert At([first]) == AfterRegister(Empty, first);
    forall k | 0 <= k < |events| ensures Possible(At(events[..k]), events[k]) {}
  }

  // ---- the DISCONNECT packet ----

  /** `disconnectHandler` of MQTT 5: an interval may not be given to a session that has none. */
  predicate Accepted(b: Broker, id: ClientID, interval: Option<nat>)
    requires id in b.sessions
  {
    b.sessions[id].expiry != 0 || interval.None? || interval.value == 0
  }

  /** A zero interval is not stored at once. */
  function AfterDisconnect(b: Broker, id: ClientID, interval: Option<nat>): Broker
    requires id in b.sessions
  {
    if Accepted(b, id, interval) && interval.Some? && interval.value != 0 then After(b, SetExpiry(id, interval.value))
    else b
  }

  /** The end of the connection, which takes its interval from an accepted DISCONNECT only. */
  function AfterClose(b: Broker, id: ClientID, interval: Option<nat>, now: int, force: bool): Broker
    requires id in b.sessions
  {
    After(AfterDisconnect(b, id, interval),
          Unregister(id, now, force, if Accepted(b, id, interval) then interval else None))
  }

  /** A session outlives its DISCONNECT exactly when it had an interval, the DISCONNECT does not set it to zero and
      its removal is not forced; a refused interval changes nothing. */
  lemma DisconnectIsExact(b: Broker, id: ClientID, interval: Option<nat>, now: int, force: bool)
    requires Inv(b) && id in b.clients && id in b.sessions
    ensures var c := AfterClose(b, id, interval, now, force);
            && (id in c.sessions <==> !force && b.sessions[id].expiry != 0 && interval != Some(0))
            && (id in c.sessions ==> id in c.offline)
            && (id in c.sessions ==>
                  c.offline[id] == Deadline(now, if interval.Some? then interval.value else b.sessions[id].expiry))
  {
    assert id !in b.offline;
    hide Deadline, Numbered;
  }

  class Server {
    var sessions: map<ClientID, Session>
    var clients: map<ClientID, int>
    var offlineClients: map<ClientID, int>
    var queueStore: map<ClientID, nat>
    var unackStore: map<ClientID, nat>
    var nextStore: nat

    function State(): Broker
      reads this
    {
      Broker(sessions, clients, offlineClients, queueStore, unackStore, nextStore)
    }

    constructor ()
      ensures State() == Empty && Inv(State())
    {
      sessions, clients, offlineClients, queueStore, unackStore, nextStore := map[], map[], map[], map[], map[], 0;
    }

    method RemoveSession(id: ClientID)
      modifies this
      ensures State() == Without(old(State()), {id})
      ensures sessions == old(sessions) - {id} && clients == old(clients) - {id}
      ensures offlineClients == old(offlineClients) - {id} && queueStore == old(queueStore) - {id}
      ensures unackStore == old(unackStore) && nextStore == old(nextStore)
    {
      clients := clients - {id};
      offlineClients := offlineClients - {id};
      if id in queueStore {
        queueStore := queueStore - {id};
      }
      sessions := sessions - {id};
    }

    /** `inconsistent` tells whether the branch for a damaged store was taken. */
    method RegisterClient(id: ClientID, seen: Option<Session>, now: int, at: int, cleanStart: bool, expiry: nat,
                          connection: int) returns (sessionResume: bool, inconsistent: bool)
      requires Inv(State()) && Possible(State(), Register(id, seen, now, at, cleanStart, expiry, connection))
      modifies this
      ensures State() == After(old(State()), Register(id, seen, now, at, cleanStart, expiry, connection))
      ensures Inv(State())
      ensures sessionResume == Resumes(old(State()), Register(id, seen, now, at, cleanStart, expiry, connection))
      ensures inconsistent == Inconsistent(old(State()), Register(id, seen, now, at, cleanStart, expiry, connection))
      ensures sessions == old(sessions)[id := Session(expiry, at)] && clients == old(clients)[id := connection]
      ensures offlineClients == old(offlineClients) - {id}
      ensures id in queueStore && queueStore == old(queueStore)[id := queueStore[id]]
      ensures id in unackStore && unackStore == old(unackStore)[id := unackStore[id]]
      ensures sessionResume || inconsistent <==>
        seen.Some? && !cleanStart && now <= seen.value.connectedAt + seen.value.expiry * 1_000_000_000
      ensures inconsistent ==> id !in old(sessions)
      ensures sessionResume ==> queueStore == old(queueStore) && unackStore == old(unackStore)
      ensures !sessionResume ==>
        queueStore[id] !in old(queueStore).Values && unackStore[id] !in old(unackStore).Values
    {
      StepKeepsInv(State(), Register(id, seen, now, at, cleanStart, expiry, connection));
      RegisterMeans(State(), Register(id, seen, now, at, cleanStart, expiry, connection));
      hide Inv;
      var qs: Option<nat>, ua: Option<nat> := None, None;
      sessionResume, inconsistent := false, false;
      if seen.Some? {
        if !IsExpired(seen.value, now) && !cleanStart {
          sessionResume := true;
        }
        if !sessionResume {
          RemoveSession(id);
        } else {
          qs := if id in queueStore then Some(queueStore[id]) else None;
          ua := if id in unackStore then Some(unackStore[id]) else None;
          if ua.None? || qs.None? {
            sessionResume, inconsistent := false, true;
          }
        }
      }
      if !sessionResume {
        qs, ua, nextStore := Some(nextStore), Some(nextStore), nextStore + 1;
      }
      PutBack(old(sessions), id, Session(expiry, at));
      PutBack(old(clients), id, connection);
      PutBack(old(offlineClients), id, 0);
      PutBack(old(queueStore), id, qs.value);
      PutBack(old(unackStore), id, ua.value);
      offlineClients := offlineClients - {id};
      sessions := sessions[id := Session(expiry, at)];
      clients := clients[id := connection];
      unackStore := unackStore[id := ua.value];
      queueStore := queueStore[id := qs.value];
    }

    /** The first part of `unregisterClient`: the interval of the DISCONNECT, and whether to store the session. */
    method TakeOverride(id: ClientID, force: bool, override: Option<nat>) returns (storeSession: bool)
      modifies this`sessions
      ensures sessions == if id in old(sessions) && !force && override.Some?
                          then old(sessions)[id := old(sessions)[id].(expiry := override.value)] else old(sessions)
      ensures storeSession <==> id in sessions && !force && sessions[id].expiry != 0
    {
      storeSession := false;
      if id in sessions {
        if !force {
          if override.Some? {
            sessions := sessions[id := sessions[id].(expiry := override.value)];
          }
          if sessions[id].expiry != 0 {
            storeSession := true;
          }
        }
      }
    }

    method UnregisterClient(id: ClientID, now: int, force: bool, override: Option<nat>)
      requires Inv(State())
      modifies this
      ensures State() == After(old(State()), Unregister(id, now, force, override)) && Inv(State())
      ensures unackStore == old(unackStore) && clients == old(clients) - {id}
      ensures id in sessions <==>
        id in old(sessions) && !force && (if override.Some? then override.value else old(sessions)[id].expiry) != 0
      ensures id in sessions ==>
        (&& sessions[id].connectedAt == old(sessions)[id].connectedAt
         && sessions[id].expiry == (if override.Some? then override.value else old(sessions)[id].expiry)
         && sessions == old(sessions)[id := sessions[id]] && queueStore == old(queueStore)
         && offlineClients == old(offlineClients)[id := now + sessions[id].expiry * 1_000_000_000])
      ensures id !in sessions ==>
        (&& sessions == old(sessions) - {id} && queueStore == old(queueStore) - {id}
         && offlineClients == old(offlineClients) - {id})
    {
      ghost var b, e := State(), Unregister(id, now, force, override);
      StepKeepsInv(b, e);
      UnregisterMeans(b, e);
      hide Inv, After, Deadline;
      var storeSession := TakeOverride(id, force, override);
      if storeSession {
        offlineClients := offlineClients[id := Deadline(now, sessions[id].expiry)];
        clients := clients - {id};
        return;
      }
      if id in b.sessions && override.Some? {
        WithoutForgets(b, id, override.value);
      }
      hide Without;
      RemoveSession(id);
    }

    method SessionExpireCheck(now: int)
      requires Inv(State())
      modifies this
      ensures State() == After(old(State()), ExpireCheck(now)) && Inv(State())
      ensures clients == old(clients) && unackStore == old(unackStore)
      ensures var overdue := set c | c in old(offlineClients) && old(offlineClients)[c] < now;
              && sessions == old(sessions) - overdue && queueStore == old(queueStore) - overdue
              && offlineClients == old(offlineClients) - overdue
    {
      StepKeepsInv(State(), ExpireCheck(now));
      ghost var before, removed: set<ClientID> := State(), {};
      var todo := offlineClients.Keys;
      ExpireStart(before, now);
      hide Checked, Inv, After, Without;
      while todo != {}
        invariant State() == Without(before, removed) && Checked(before, now, todo, removed)
        decreases todo
      {
        var cid :| cid in todo;
        ExpireStep(before, now, removed, todo, cid);
        todo := todo - {cid};
        assert offlineClients == Without(before, removed).offline;
        if now > offlineClients[cid] {
          WithoutOneMore(before, removed, cid);
          RemoveSession(cid);
          removed := removed + {cid};
        }
      }
      ExpireEnd(before, now, removed);
      ExpireMeans(before, now);
    }

    method TerminateSession(id: ClientID)
      requires Inv(State())
      modifies this
      ensures State() == After(old(State()), Terminate(id)) && Inv(State())
      ensures clients == old(clients) && unackStore == old(unackStore)
      ensures var gone := if id in old(offlineClients) then {id} else {};
              && sessions == old(sessions) - gone && queueStore == old(queueStore) - gone
              && offlineClients == old(offlineClients) - gone
    {
      StepKeepsInv(State(), Terminate(id));
      hide Numbered;
      if id in clients {
        return;
      }
      if id in offlineClients {
        RemoveSession(id);
      }
    }

    /** `disconnectHandler`; false stands for the protocol error. */
    method HandleDisconnect(id: ClientID, interval: Option<nat>) returns (ok: bool)
      requires Inv(State()) && id in sessions
      modifies this
      ensures ok <==> Accepted(old(State()), id, interval)
      ensures State() == AfterDisconnect(old(State()), id, interval) && Inv(State())
      ensures ok <==> old(sessions)[id].expiry != 0 || interval in {None, Some(0)}
      ensures ok && interval !in {None, Some(0)} ==>
        sessions == old(sessions)[id := old(sessions)[id].(expiry := interval.value)]
      ensures !ok || interval in {None, Some(0)} ==> State() == old(State())
    {
      var disExpiry := if interval.Some? then interval.value else 0;
      if sessions[id].expiry == 0 && disExpiry != 0 {
        return false;
      }
      if disExpiry != 0 {
        SetSessionExpiry(id, disExpiry);
      }
      return true;
    }

    method SetSessionExpiry(id: ClientID, expiry: nat)
      requires Inv(State())
      modifies this
      ensures State() == After(old(State()), SetExpiry(id, expiry)) && Inv(State())
      ensures State() == old(State()).(sessions := sessions) && sessions.Keys == old(sessions).Keys
      ensures forall c :: c in sessions ==>
        sessions[c] == if c == id then old(sessions)[c].(expiry := expiry) else old(sessions)[c]
    {
      StepKeepsInv(State(), SetExpiry(id, expiry));
      if id in sessions {
        sessions := sessions[id := sessions[id].(expiry := expiry)];
      }
    }
  }

  /** The loop over the offline clients has `todo` left and removed the overdue ones among the others. */
  ghost predicate Checked(b: Broker, now: int, todo: set<ClientID>, removed: set<ClientID>) {
    todo <= b.offline.Keys && removed == Overdue(b, now) - todo
  }

  lemma ExpireStart(b: Broker, now: int)
    ensures Without(b, {}) == b && Checked(b, now, b.offline.Keys, {})
  {
    assert b.sessions - {} == b.sessions && b.clients - {} == b.clients;
    assert b.offline - {} == b.offline && b.queues - {} == b.queues;
  }

  lemma ExpireStep(b: Broker, now: int, removed: set<ClientID>, todo: set<ClientID>, id: ClientID)
    requires id in todo && Checked(b, now, todo, removed)
    ensures var left := Without(b, removed).offline; id in left && left[id] == b.offline[id]
    ensures Checked(b, now, todo - {id}, if now > b.offline[id] then removed + {id} else removed)
  {
  }

  lemma ExpireEnd(b: Broker, now: int, removed: set<ClientID>)
    requires Checked(b, now, {}, removed)
    ensures Without(b, removed) == After(b, ExpireCheck(now))
  {
    assert removed == Overdue(b, now);
  }

  lemma ExpireMeans(b: Broker, now: int)
    requires Inv(b)
    ensures var c, overdue := After(b, ExpireCheck(now)), set c | c in b.offline && b.offline[c] < now;
            c == Broker(b.sessions - overdue, b.clients, b.offline - overdue, b.queues - overdue, b.unacks, b.next)
  {
    hide Numbered;
    assert Overdue(b, now) == set c | c in b.offline && b.offline[c] < now;
    assert b.clients - Overdue(b, now) == b.clients;
  }

  lemma UnregisterMeans(b: Broker, e: Event)
    requires e.Unregister?
    ensures Stores(b, e) ==>
              After(b, e) == b.(sessions := if e.override.None? then b.sessions
                                            else b.sessions[e.id := b.sessions[e.id].(expiry := e.override.value)],
                                clients := b.clients - {e.id},
                                offline := b.offline[e.id := Deadline(e.now, KeptFor(b, e))])
    ensures !Stores(b, e) ==> After(b, e) == Without(b, {e.id})
  {
    assert Stores(b, e) && e.override.None? ==> b.sessions[e.id := b.sessions[e.id]] == b.sessions;
  }

  /** What the removed session was set to before does not matter. */
  lemma WithoutForgets(b: Broker, id: ClientID, expiry: nat)
    requires id in b.sessions
    ensures Without(b.(sessions := b.sessions[id := b.sessions[id].(expiry := expiry)]), {id}) == Without(b, {id})
  {
    assert b.sessions[id := b.sessions[id].(expiry := expiry)] - {id} == b.sessions - {id};
  }

  lemma PutBack<V>(m: map<ClientID, V>, id: ClientID, v: V)
    ensures (m - {id})[id := v] == m[id := v] && m - {id} - {id} == m - {id}
    ensures id in m ==> m[id := m[id]] == m && m[id := v] - {id} == m - {id}
  {
  }

  lemma WithoutOneMore(b: Broker, ids: set<ClientID>, id: ClientID)
    ensures Without(Without(b, ids), {id}) == Without(b, ids + {id})
  {
    assert b.sessions - ids - {id} == b.sessions - (ids + {id}) && b.clients - ids - {id} == b.clients - (ids + {id});
    assert b.offline - ids - {id} == b.offline - (ids + {id}) && b.queues - ids - {id} == b.queues - (ids + {id});
  }
}
