/** The in-memory message queue of one client, gmqtt/persistence/queue/mem/mem.go. */
module MsgQueue {
  import opened Digraph
  import opened Positions

  /** Id 0: not read yet. Expiry 0: never expires, as a PUBREL does not. */
  datatype Entry = Entry(id: int, qos: int, expiry: nat, tooBig: bool)

  /** The messages read and not removed, and those from `current` on. */
  datatype Queue = Queue(inflight: seq<Entry>, unread: seq<Entry>, drained: bool)

  /** Whom a full queue drops. */
  datatype Victim = Nobody | Newcomer | Oldest | Unread(i: nat)

  predicate Expired(e: Entry, now: nat) {
    e.expiry != 0 && now > e.expiry
  }

  predicate UnreadExpired(e: Entry, now: nat) {
    e.id == 0 && Expired(e, now)
  }

  predicate UnreadQos0(e: Entry) {
    e.id == 0 && e.qos == 0
  }

  /** The first index with the property, or the length. */
  function First(es: seq<Entry>, p: Entry -> bool): nat {
    if es == [] || p(es[0]) then 0 else 1 + First(es[1..], p)
  }

  lemma {:induction false} FirstMeans(es: seq<Entry>, p: Entry -> bool, i: nat)
    requires i <= |es| && (i < |es| ==> p(es[i])) && forall j :: 0 <= j < i ==> !p(es[j])
    ensures First(es, p) == i
  {
    if i > 0 {
      assert es[0] in es && !p(es[0]);
      assert forall j :: 0 <= j < i - 1 ==> es[1..][j] == es[j + 1];
      FirstMeans(es[1..], p, i - 1);
    }
  }

  predicate Full(q: Queue, max: nat) {
    |q.inflight| + |q.unread| >= max
  }

  predicate OldestExpired(q: Queue, now: nat) {
    q.inflight != [] && Expired(q.inflight[0], now)
  }

  function Choose(q: Queue, elem: Entry, max: nat, now: nat): (v: Victim)
    ensures v.Unread? ==> v.i < |q.unread|
    ensures v.Oldest? <==> Full(q, max) && OldestExpired(q, now)
  {
    if !Full(q, max) then Nobody
    else if OldestExpired(q, now) then Oldest
    else if q.drained && q.unread == [] then Newcomer
    else
      var expired, qos0 := First(q.unread, e => UnreadExpired(e, now)), First(q.unread, e => UnreadQos0(e));
      if expired < |q.unread| then Unread(expired)
      else if qos0 < |q.unread| then Unread(qos0)
      else if elem.qos == 0 || !q.drained then Newcomer
      else Unread(0)
  }

  function Without(es: seq<Entry>, i: nat): seq<Entry>
    requires i < |es|
  {
    es[..i] + es[i + 1..]
  }

  function Added(q: Queue, elem: Entry, v: Victim): Queue
    requires (v.Oldest? ==> q.inflight != []) && (v.Unread? ==> v.i < |q.unread|)
  {
    match v
    case Nobody => q.(unread := q.unread + [elem])
    case Newcomer => q
    case Oldest => q.(inflight := q.inflight[1..], unread := q.unread + [elem])
    case Unread(i) => q.(unread := Without(q.unread, i) + [elem])
  }

  /** Where the in-flight message with this id stands, or the length. */
  function Position(es: seq<Entry>, id: int): nat {
    First(es, (e: Entry) => e.id == id)
  }

  function Removed(q: Queue, id: int): Queue {
    var i := Position(q.inflight, id);
    if i < |q.inflight| then q.(inflight := Without(q.inflight, i)) else q
  }

  /** PUBREL in the place of the PUBLISH. */
  function Replaced(q: Queue, id: int): Queue {
    var i := Position(q.inflight, id);
    if i < |q.inflight| then q.(inflight := q.inflight[i := q.inflight[i].(expiry := 0)]) else q
  }

  /** What the read makes of one message that goes out under `id`. */
  function Sent(e: Entry, id: int, now: nat, ttl: nat): Entry {
    if ttl == 0 then e.(id := id) else e.(id := id, expiry := now + ttl)
  }

  /** `Read`: at most n messages, without the expired and oversized ones; ids are given out in order. */
  function ReadUnread(unread: seq<Entry>, ids: seq<int>, n: nat, now: nat, ttl: nat): (seq<Entry>, seq<Entry>)
    requires n <= |ids|
    decreases n
  {
    if n == 0 || unread == [] then ([], unread)
    else if Expired(unread[0], now) || unread[0].tooBig then ReadUnread(unread[1..], ids, n - 1, now, ttl)
    else if unread[0].qos == 0 then
      var (elems, rest) := ReadUnread(unread[1..], ids, n - 1, now, ttl);
      ([unread[0]] + elems, rest)
    else
      var (elems, rest) := ReadUnread(unread[1..], ids[1..], n - 1, now, ttl);
      ([Sent(unread[0], ids[0], now, ttl)] + elems, rest)
  }

  /** The messages that stay in flight. */
  function NeedAck(elems: seq<Entry>): seq<Entry> {
    if elems == [] then []
    else (if elems[0].qos != 0 then [elems[0]] else []) + NeedAck(elems[1..])
  }

  function Ids(es: seq<Entry>): (ids: seq<int>)
    ensures |ids| == |es| && forall i :: 0 <= i < |es| ==> ids[i] == es[i].id
  {
    if es == [] then [] else [es[0].id] + Ids(es[1..])
  }

  lemma IdsAppend(a: seq<Entry>, b: seq<Entry>)
    ensures Ids(a + b) == Ids(a) + Ids(b)
  {
  }

  function Length(q: Queue): nat {
    |q.inflight| + |q.unread|
  }

  function ReadCount(q: Queue, ids: seq<int>): nat {
    if |ids| < Length(q) then |ids| else Length(q)
  }

  /** The elements read and the queue afterwards. */
  function ReadNew(q: Queue, ids: seq<int>, now: nat, ttl: nat): (seq<Entry>, Queue) {
    var (elems, rest) := ReadUnread(q.unread, ids, ReadCount(q, ids), now, ttl);
    (elems, q.(inflight := q.inflight + NeedAck(elems), unread := rest))
  }

  /** The read is at element i with `elems` out and `pflag` ids given away. */
  ghost predicate Reading(all: seq<Entry>, ids: seq<int>, n: nat, now: nat, ttl: nat, elems: seq<Entry>,
                          unread: seq<Entry>, pflag: nat, i: nat)
    requires n <= |ids| && pflag <= i <= n
  {
    && ReadUnread(all, ids, n, now, ttl).0 == elems + ReadUnread(unread, ids[pflag..], n - i, now, ttl).0
    && ReadUnread(all, ids, n, now, ttl).1 == ReadUnread(unread, ids[pflag..], n - i, now, ttl).1
  }

  lemma ReadingStep(all: seq<Entry>, ids: seq<int>, n: nat, now: nat, ttl: nat, elems: seq<Entry>,
                    unread: seq<Entry>, pflag: nat, i: nat)
    requires n <= |ids| && pflag <= i < n && unread != [] && Reading(all, ids, n, now, ttl, elems, unread, pflag, i)
    ensures var e := unread[0];
            if Expired(e, now) || e.tooBig then Reading(all, ids, n, now, ttl, elems, unread[1..], pflag, i + 1)
            else if e.qos == 0 then Reading(all, ids, n, now, ttl, elems + [e], unread[1..], pflag, i + 1)
            else Reading(all, ids, n, now, ttl, elems + [Sent(e, ids[pflag], now, ttl)], unread[1..], pflag + 1, i + 1)
  {
    var e := unread[0];
    if !Expired(e, now) && !e.tooBig {
      var rest := if e.qos == 0 then ids[pflag..] else ids[pflag + 1..];
      assert ids[pflag..][0] == ids[pflag] && ids[pflag..][1..] == ids[pflag + 1..];
      var first := if e.qos == 0 then e else Sent(e, ids[pflag], now, ttl);
      var more := ReadUnread(unread[1..], rest, n - i - 1, now, ttl).0;
      assert elems + ([first] + more) == elems + [first] + more;
    }
  }

  lemma NeedAckAppend(a: seq<Entry>, e: Entry)
    ensures NeedAck(a + [e]) == NeedAck(a) + (if e.qos != 0 then [e] else [])
  {
    if a == [] {
      assert a + [e] == [e];
    } else {
      NeedAckAppend(a[1..], e);
      assert (a + [e])[1..] == a[1..] + [e];
    }
  }

  /** The ids used are a prefix of the ids offered: what the reslicing of `ids` in the poll loop relies on. */
  lemma {:induction false} ReadUsesPrefix(unread: seq<Entry>, ids: seq<int>, n: nat, now: nat, ttl: nat)
    requires n <= |ids|
    ensures var used := Ids(NeedAck(ReadUnread(unread, ids, n, now, ttl).0)); |used| <= n && used == ids[..|used|]
    decreases n
  {
    if n != 0 && unread != [] {
      var e := unread[0];
      if Expired(e, now) || e.tooBig {
        ReadUsesPrefix(unread[1..], ids, n - 1, now, ttl);
      } else {
        var rest := if e.qos == 0 then ids else ids[1..];
        ReadUsesPrefix(unread[1..], rest, n - 1, now, ttl);
        var elems := ReadUnread(unread[1..], rest, n - 1, now, ttl).0;
        var first := if e.qos == 0 then e else Sent(e, ids[0], now, ttl);
        assert ReadUnread(unread, ids, n, now, ttl).0 == [first] + elems;
        assert first.qos == e.qos && (e.qos != 0 ==> first.id == ids[0]);
        hide ReadUnread, Sent, Expired;
        assert ([first] + elems)[1..] == elems;
      }
    }
  }

  // ---- the documented priorities ----

  /** What `Add` keeps, whatever it drops: the queue never outgrows its maximum, nothing is reordered, and only an
      expired oldest message leaves the in-flight part. */
  lemma AddedKeeps(q: Queue, elem: Entry, max: nat, now: nat)
    ensures var v := Choose(q, elem, max, now);
            var q' := Added(q, elem, v);
            && (Length(q) <= max ==> Length(q') <= max)
            && (q'.inflight == q.inflight || (OldestExpired(q, now) && q'.inflight == q.inflight[1..]))
            && (v.Newcomer? || (q'.unread != [] && q'.unread[|q'.unread| - 1] == elem))
  {
  }

  /** The first message with the expiry passed, or of QoS 0, among those not in flight. */
  ghost predicate FirstOverdue(es: seq<Entry>, i: nat, now: nat) {
    && i < |es| && es[i].id == 0 && es[i].expiry != 0 && now > es[i].expiry
    && forall j :: 0 <= j < i && es[j].id == 0 ==> es[j].expiry == 0 || now <= es[j].expiry
  }

  ghost predicate NoneOverdue(es: seq<Entry>, now: nat) {
    forall e :: e in es && e.id == 0 ==> e.expiry == 0 || now <= e.expiry
  }

  ghost predicate FirstQos0(es: seq<Entry>, i: nat) {
    i < |es| && es[i].id == 0 && es[i].qos == 0 && forall j :: 0 <= j < i && es[j].id == 0 ==> es[j].qos != 0
  }

  ghost predicate NoneQos0(es: seq<Entry>) {
    forall e :: e in es && e.id == 0 ==> e.qos != 0
  }

  // ---- reading ----

  /** A message as it was queued, or under an id and with the expiry of a message in flight. */
  predicate SentAs(e: Entry, sent: Entry, now: nat, ttl: nat) {
    if e.qos == 0 then sent == e
    else
      && sent.qos == e.qos && sent.tooBig == e.tooBig
      && sent.expiry == if ttl == 0 then e.expiry else now + ttl
  }

  predicate Readable(e: Entry, now: nat) {
    (e.expiry == 0 || now <= e.expiry) && !e.tooBig
  }

  /** `elems` are the messages at the positions `at`, in order, as they are sent. */
  ghost predicate SentFrom(unread: seq<Entry>, at: seq<nat>, elems: seq<Entry>, now: nat, ttl: nat) {
    && Ascending(at, |unread|) && |elems| == |at|
    && forall m :: 0 <= m < |at| ==> SentAs(unread[at[m]], elems[m], now, ttl)
  }

  lemma SentFront(unread: seq<Entry>, at: seq<nat>, elems: seq<Entry>, now: nat, ttl: nat, sent: Entry)
    requires unread != [] && SentFrom(unread[1..], at, elems, now, ttl)
    ensures SentFrom(unread, Shifted(at, false), elems, now, ttl)
    ensures SentAs(unread[0], sent, now, ttl) ==> SentFrom(unread, Shifted(at, true), [sent] + elems, now, ttl)
  {
    ShiftedAscends(at, false, |unread| - 1);
    ShiftedAscends(at, true, |unread| - 1);
    hide Ascending, SentAs;
    assert forall m :: 0 <= m < |at| ==> unread[at[m] + 1] == unread[1..][at[m]];
  }

  lemma ReadNext(unread: seq<Entry>, ids: seq<int>, n: nat, now: nat, ttl: nat)
    requires 0 < n <= |ids| && unread != []
    ensures var e, all := unread[0], ReadUnread(unread, ids, n, now, ttl);
            var ids' := if Readable(e, now) && e.qos != 0 then ids[1..] else ids;
            var later := ReadUnread(unread[1..], ids', n - 1, now, ttl);
            && all.1 == later.1
            && if !Readable(e, now) then all.0 == later.0
               else exists sent :: SentAs(e, sent, now, ttl) && all.0 == [sent] + later.0
  {
    var e := unread[0];
    assert Readable(e, now) && e.qos != 0 ==> SentAs(e, Sent(e, ids[0], now, ttl), now, ttl);
  }

  /** A read takes messages from the front, as many as there are ids; those expired or too big are lost, the others
      are returned in order. */
  lemma {:induction false} ReadMeans(unread: seq<Entry>, ids: seq<int>, n: nat, now: nat, ttl: nat)
    returns (at: seq<nat>)
    requires n <= |ids|
    ensures ReadUnread(unread, ids, n, now, ttl).1 == unread[if n < |unread| then n else |unread|..]
    ensures SentFrom(unread, at, ReadUnread(unread, ids, n, now, ttl).0, now, ttl)
    ensures forall i: nat :: i in at <==> i < n && i < |unread| && Readable(unread[i], now)
    decreases n
  {
    at := [];
    if n != 0 && unread != [] {
      var e, rest := unread[0], unread[1..];
      var ids' := if Readable(e, now) && e.qos != 0 then ids[1..] else ids;
      ReadNext(unread, ids, n, now, ttl);
      var later := ReadMeans(rest, ids', n - 1, now, ttl);
      var elems0 := ReadUnread(rest, ids', n - 1, now, ttl).0;
      hide ReadUnread, Readable, SentFrom, SentAs;
      var sent := if Readable(e, now) then ReadUnread(unread, ids, n, now, ttl).0[0] else e;
      SentFront(unread, later, elems0, now, ttl, sent);
      at := Shifted(later, Readable(e, now));
      forall i: nat
        ensures i in at <==> i < n && i < |unread| && Readable(unread[i], now)
      {
        ShiftedHolds(later, Readable(e, now), i);
      }
    }
  }

  /** A read took a message for each id, while there were any, and returned all of them but the expired and
      oversized ones. */
  ghost predicate ReadRightly(unread: seq<Entry>, elems: seq<Entry>, unread': seq<Entry>, ids: seq<int>, now: nat,
                              ttl: nat) {
    && unread' == unread[if |ids| < |unread| then |ids| else |unread|..]
    && exists at: seq<nat> :: SentFrom(unread, at, elems, now, ttl) &&
         forall i: nat :: i in at <==> i < |ids| && i < |unread| && Readable(unread[i], now)
  }

  lemma ReadIsRight(q: Queue, ids: seq<int>, now: nat, ttl: nat)
    ensures ReadRightly(q.unread, ReadNew(q, ids, now, ttl).0, ReadNew(q, ids, now, ttl).1.unread, ids, now, ttl)
  {
    var at := ReadMeans(q.unread, ids, ReadCount(q, ids), now, ttl);
    hide ReadUnread, SentFrom, Readable;
  }

  /** The messages of higher QoS stay, in order. */
  lemma {:induction false} NeedAckKeeps(elems: seq<Entry>) returns (at: seq<nat>)
    ensures KeptAt(elems, at, NeedAck(elems))
    ensures forall i: nat :: i in at <==> i < |elems| && elems[i].qos != 0
  {
    at := [];
    if elems != [] {
      var at0 := NeedAckKeeps(elems[1..]);
      at := Shifted(at0, elems[0].qos != 0);
      KeptAtFront(elems[1..], at0, NeedAck(elems[1..]), elems[0]);
      assert [elems[0]] + elems[1..] == elems;
      forall i: nat
        ensures i in at <==> i < |elems| && elems[i].qos != 0
      {
        ShiftedHolds(at0, elems[0].qos != 0, i);
      }
    }
  }

  /** The queue after one unread message made room for the new one. */
  function Instead(q: Queue, i: nat, elem: Entry): Queue
    requires i < |q.unread|
  {
    q.(unread := q.unread[..i] + q.unread[i + 1..] + [elem])
  }

  /** What `Add` does to a full queue, in the order of the documented priorities. */
  ghost predicate DropsByPriority(q: Queue, elem: Entry, now: nat, q': Queue) {
    if q.inflight != [] && q.inflight[0].expiry != 0 && now > q.inflight[0].expiry then
      q' == Queue(q.inflight[1..], q.unread + [elem], q.drained)
    else if q.drained && q.unread == [] then q' == q
    else
      && (forall i :: FirstOverdue(q.unread, i, now) ==> q' == Instead(q, i, elem))
      && (NoneOverdue(q.unread, now) ==>
            && (forall i :: FirstQos0(q.unread, i) ==> q' == Instead(q, i, elem))
            && (NoneQos0(q.unread) ==>
                  && (elem.qos == 0 || !q.drained ==> q' == q)
                  && (elem.qos != 0 && q.drained ==> q' == Instead(q, 0, elem))))
  }

  /** The drop decision follows the documented priorities, and a queue that is not full takes every message. */
  lemma PrioritiesAreMet(q: Queue, elem: Entry, max: nat, now: nat)
    ensures var q' := Added(q, elem, Choose(q, elem, max, now));
            if |q.inflight| + |q.unread| >= max then DropsByPriority(q, elem, now, q')
            else q' == q.(unread := q.unread + [elem])
  {
    forall i | FirstOverdue(q.unread, i, now) ensures First(q.unread, e => UnreadExpired(e, now)) == i {
      FirstMeans(q.unread, e => UnreadExpired(e, now), i);
    }
    if NoneOverdue(q.unread, now) {
      FirstMeans(q.unread, e => UnreadExpired(e, now), |q.unread|);
    }
    forall i | FirstQos0(q.unread, i) ensures First(q.unread, e => UnreadQos0(e)) == i {
      FirstMeans(q.unread, e => UnreadQos0(e), i);
    }
    if NoneQos0(q.unread) {
      FirstMeans(q.unread, e => UnreadQos0(e), |q.unread|);
    }
    hide First;
  }

  predicate SomeExpired(q: Queue, now: nat) {
    exists i :: 0 <= i < |q.inflight| && Expired(q.inflight[i], now)
  }

  /** Each in-flight message was given its expiry when it was read, oldest first; a PUBREL has none. */
  predicate InOrder(q: Queue, clock: nat, ttl: nat) {
    && (forall i :: 0 <= i < |q.inflight| ==> q.inflight[i].expiry <= clock + ttl)
    && (forall i, j :: 0 <= i < j < |q.inflight| && q.inflight[j].expiry != 0 ==>
          q.inflight[i].expiry <= q.inflight[j].expiry)
  }

  /** The first priority, to drop an expired in-flight message when there is one, is met exactly when the oldest
      in-flight message is expired. Where they expire oldest first, that is when the oldest is not a PUBREL. */
  lemma FirstPriorityIsExact(q: Queue, elem: Entry, max: nat, now: nat)
    requires Full(q, max) && SomeExpired(q, now)
    ensures Choose(q, elem, max, now).Oldest? <==> Expired(q.inflight[0], now)
    ensures forall clock, ttl :: InOrder(q, clock, ttl) ==>
              (Choose(q, elem, max, now).Oldest? <==> q.inflight[0].expiry != 0)
  {
    var i :| 0 <= i < |q.inflight| && Expired(q.inflight[i], now);
    forall clock, ttl | InOrder(q, clock, ttl)
      ensures Expired(q.inflight[0], now) <==> q.inflight[0].expiry != 0
    {
      assert i > 0 ==> q.inflight[0].expiry <= q.inflight[i].expiry;
    }
  }

  lemma {:induction false} NeedAckInOrder(unread: seq<Entry>, ids: seq<int>, n: nat, now: nat, ttl: nat)
    requires n <= |ids| && ttl != 0
    ensures forall e :: e in NeedAck(ReadUnread(unread, ids, n, now, ttl).0) ==> e.expiry == now + ttl
    decreases n
  {
    if n != 0 && unread != [] {
      var e := unread[0];
      if Expired(e, now) || e.tooBig {
        NeedAckInOrder(unread[1..], ids, n - 1, now, ttl);
      } else {
        var rest := if e.qos == 0 then ids else ids[1..];
        NeedAckInOrder(unread[1..], rest, n - 1, now, ttl);
        var elems := ReadUnread(unread[1..], rest, n - 1, now, ttl).0;
        var first := if e.qos == 0 then e else Sent(e, ids[0], now, ttl);
        assert ReadUnread(unread, ids, n, now, ttl).0 == [first] + elems;
        assert ([first] + elems)[1..] == elems;
      }
    }
  }

  lemma ReadKeepsOrder(q: Queue, ids: seq<int>, clock: nat, now: nat, ttl: nat)
    requires InOrder(q, clock, ttl) && clock <= now && ttl != 0
    ensures InOrder(ReadNew(q, ids, now, ttl).1, now, ttl)
  {
    NeedAckInOrder(q.unread, ids, ReadCount(q, ids), now, ttl);
    var more := NeedAck(ReadUnread(q.unread, ids, ReadCount(q, ids), now, ttl).0);
    assert forall i :: 0 <= i < |more| ==> more[i] in more;
  }

  lemma RemoveKeepsOrder(q: Queue, id: int, clock: nat, ttl: nat)
    requires InOrder(q, clock, ttl)
    ensures InOrder(Removed(q, id), clock, ttl)
  {
    var k, q' := Position(q.inflight, id), Removed(q, id);
    hide First;
    if k < |q.inflight| {
      forall i | 0 <= i < |q'.inflight| ensures q'.inflight[i] == q.inflight[if i < k then i else i + 1] {}
    }
  }

  lemma ReplaceKeepsOrder(q: Queue, id: int, clock: nat, ttl: nat)
    requires InOrder(q, clock, ttl)
    ensures InOrder(Replaced(q, id), clock, ttl)
  {
    var k, q' := Position(q.inflight, id), Replaced(q, id);
    hide First;
    if k < |q.inflight| {
      forall i | 0 <= i < |q'.inflight| ensures q'.inflight[i].expiry == if i == k then 0 else q.inflight[i].expiry {}
    }
  }

  lemma AddKeepsOrder(q: Queue, elem: Entry, max: nat, clock: nat, now: nat, ttl: nat)
    requires InOrder(q, clock, ttl) && clock <= now
    ensures InOrder(Added(q, elem, Choose(q, elem, max, now)), now, ttl)
  {
    AddedKeeps(q, elem, max, now);
    hide Added, Choose;
  }

  lemma DropsFront(es: seq<Entry>)
    ensures es != [] ==> Without(es, 0) == es[1..]
  {
  }

  class MemQueue {
    var list: seq<Entry>
    var current: nat
    var drained: bool
    const max: nat
    const ttl: nat

    ghost predicate Valid()
      reads this
    {
      current <= |list|
    }

    ghost function Now(): Queue
      reads this
      requires Valid()
    {
      Queue(list[..current], list[current..], drained)
    }

    constructor (max: nat, ttl: nat)
      ensures Valid() && Now() == Queue([], [], false) && this.max == max && this.ttl == ttl
    {
      list, current, drained := [], 0, false;
      this.max, this.ttl := max, ttl;
    }

    /** `ReadInflight` of a queue without in-flight messages ahead. */
    method Drain()
      requires Valid()
      modifies this`drained
      ensures Now() == old(Now()).(drained := true)
    {
      drained := true;
    }

    method PushBack(elem: Entry)
      requires Valid()
      modifies this`list
      ensures Valid() && Now() == old(Now()).(unread := old(Now()).unread + [elem])
    {
      list := list + [elem];
    }

    method RemoveAt(i: nat)
      requires Valid() && i < |list|
      modifies this`list, this`current
      ensures Valid()
      ensures Now() == if i < old(current) then old(Now()).(inflight := Without(old(Now()).inflight, i))
                       else old(Now()).(unread := Without(old(Now()).unread, i - old(current)))
    {
      list := list[..i] + list[i + 1..];
      if i < current {
        current := current - 1;
        assert list[..current] == Without(old(list[..current]), i) && list[current..] == old(list[current..]);
      } else {
        assert list[..current] == old(list[..current]) && list[current..] == Without(old(list[current..]), i - current);
      }
    }

    method Add(elem: Entry, now: nat) returns (victim: Victim)
      requires Valid()
      modifies this`list, this`current
      ensures Valid() && victim == Choose(old(Now()), elem, max, now) && Now() == Added(old(Now()), elem, victim)
      ensures if |old(list)| >= max then DropsByPriority(old(Now()), elem, now, Now())
              else Now() == old(Now()).(unread := old(Now()).unread + [elem])
    {
      PrioritiesAreMet(Now(), elem, max, now);
      assert |list| < max ==> Choose(Now(), elem, max, now) == Nobody;
      hide Choose, Without, DropsByPriority;
      victim := Nobody;
      if |list| >= max {
        victim := PickVictim(elem, now);
        if victim.Oldest? {
          DropsFront(Now().inflight);
          RemoveAt(0);
        } else if victim.Unread? {
          RemoveAt(current + victim.i);
        }
      }
      if !victim.Newcomer? {
        PushBack(elem);
      }
    }

    /** The drop decision of a full queue. */
    method PickVictim(elem: Entry, now: nat) returns (victim: Victim)
      requires Valid() && |list| >= max
      ensures victim == Choose(Now(), elem, max, now)
    {
      if 0 < current && Expired(list[0], now) {
        return Oldest;
      }
      if drained && current == |list| {
        return Newcomer;
      }
      var drop := FindVictim(now);
      if drop < |list| {
        return Unread(drop - current);
      }
      if elem.qos == 0 {
        return Newcomer;
      }
      victim := if drained then Unread(0) else Newcomer;
    }

    /** The first expired unread message, else the first of QoS 0, else the length. */
    method FindVictim(now: nat) returns (drop: nat)
      requires Valid()
      ensures var unread := list[current..];
              var expired, qos0 := First(unread, e => UnreadExpired(e, now)), First(unread, e => UnreadQos0(e));
              drop == current + if expired < |unread| then expired else qos0
    {
      ghost var unread := list[current..];
      drop := |list|;
      var e := current;
      while e < |list|
        invariant current <= e <= |list| && current <= drop <= |list|
        invariant forall j :: 0 <= j < e - current ==> !UnreadExpired(unread[j], now)
        invariant drop < |list| ==> drop < e && UnreadQos0(unread[drop - current])
        invariant forall j :: 0 <= j < (if drop < e then drop else e) - current ==> !UnreadQos0(unread[j])
      {
        if list[e].id == 0 && Expired(list[e], now) {
          FirstMeans(unread, x => UnreadExpired(x, now), e - current);
          return e;
        }
        if list[e].id == 0 && list[e].qos == 0 && drop == |list| {
          drop := e;
        }
        e := e + 1;
      }
      FirstMeans(unread, x => UnreadExpired(x, now), |unread|);
      FirstMeans(unread, x => UnreadQos0(x), drop - current);
    }

    /** For as many elements as there are ids; the wait for a message is the precondition. */
    method Read(ids: seq<int>, now: nat) returns (elems: seq<Entry>)
      requires Valid() && drained && current < |list|
      modifies this`list, this`current
      ensures Valid() && (elems, Now()) == ReadNew(old(Now()), ids, now, ttl)
      ensures ReadRightly(old(list[current..]), elems, list[current..], ids, now, ttl)
    {
      ghost var was := Now();
      ReadIsRight(was, ids, now, ttl);
      var n := if |ids| < |list| then |ids| else |list|;
      elems := [];
      var pflag, i := 0, 0;
      ghost var all, before := list[current..], list[..current];
      ReadStarts(all, ids, n, now);
      assert before + NeedAck([]) == before;
      hide ReadUnread, Sent, Reading, ReadRightly, NeedAck, Expired;
      while i < n && current < |list|
        invariant Valid() && 0 <= i <= n && 0 <= pflag <= i
        invariant Reading(all, ids, n, now, ttl, elems, list[current..], pflag, i)
        invariant list[..current] == before + NeedAck(elems)
        decreases n - i
      {
        ReadingStep(all, ids, n, now, ttl, elems, list[current..], pflag, i);
        var used;
        elems, used := TakeCurrent(elems, ids[pflag], now);
        i, pflag := i + 1, if used then pflag + 1 else pflag;
      }
      ReadEnds(all, ids, n, now, elems, list[current..], pflag, i);
      assert n == ReadCount(was, ids) && (elems, Now()) == ReadNew(was, ids, now, ttl);
    }

    /** One round of the read: the message at `current` is dropped, sent, or sent under `id` and kept. */
    method TakeCurrent(elems: seq<Entry>, id: int, now: nat) returns (more: seq<Entry>, used: bool)
      requires Valid() && current < |list|
      modifies this`list, this`current
      ensures Valid() && list[current..] == old(list[current..])[1..]
      ensures var e := old(list[current]);
              && (used <==> !Expired(e, now) && !e.tooBig && e.qos != 0)
              && more == (if Expired(e, now) || e.tooBig then elems else if used then elems + [Sent(e, id, now, ttl)]
                          else elems + [e])
      ensures forall before :: old(list[..current]) == before + NeedAck(elems) ==>
                               list[..current] == before + NeedAck(more)
    {
      var v := list[current];
      more, used := elems, false;
      NeedAckAppend(elems, v);
      hide NeedAck;
      if Expired(v, now) || v.tooBig {
        DropCurrent();
      } else if v.qos == 0 {
        DropCurrent();
        more := elems + [v];
      } else {
        v := Keep(id, now);
        NeedAckAppend(elems, v);
        more, used := elems + [v], true;
      }
    }

    lemma ReadStarts(all: seq<Entry>, ids: seq<int>, n: nat, now: nat)
      requires n <= |ids|
      ensures Reading(all, ids, n, now, ttl, [], all, 0, 0)
    {
      hide ReadUnread;
      assert ids[0..] == ids;
    }

    lemma ReadEnds(all: seq<Entry>, ids: seq<int>, n: nat, now: nat, elems: seq<Entry>, unread: seq<Entry>,
                   pflag: nat, i: nat)
      requires n <= |ids| && pflag <= i <= n && (i == n || unread == [])
      requires Reading(all, ids, n, now, ttl, elems, unread, pflag, i)
      ensures ReadUnread(all, ids, n, now, ttl) == (elems, unread)
    {
      assert ReadUnread(unread, ids[pflag..], n - i, now, ttl) == ([], unread);
      assert elems + [] == elems;
    }

    method DropCurrent()
      requires Valid() && current < |list|
      modifies this`list
      ensures Valid() && list[..current] == old(list[..current]) && list[current..] == old(list[current..])[1..]
    {
      list := list[..current] + list[current + 1..];
    }

    /** The message goes out and stays in the queue in flight. */
    method Keep(id: int, now: nat) returns (v: Entry)
      requires Valid() && current < |list|
      modifies this`list, this`current
      ensures Valid() && v == Sent(old(list[current]), id, now, ttl) && v.qos == old(list[current]).qos
      ensures list[..current] == old(list[..current]) + [v] && list[current..] == old(list[current..])[1..]
    {
      v := list[current].(id := id);
      if ttl != 0 {
        v := v.(expiry := now + ttl);
      }
      list := list[current := v];
      current := current + 1;
    }

    /** The in-flight message with this id, or `current`. */
    method Find(id: int) returns (i: nat)
      requires Valid()
      ensures i == Position(Now().inflight, id)
    {
      i := 0;
      while i < current && list[i].id != id
        invariant 0 <= i <= current && forall j :: 0 <= j < i ==> list[j].id != id
      {
        i := i + 1;
      }
      FirstMeans(list[..current], (e: Entry) => e.id == id, i);
    }

    method Remove(id: int)
      requires Valid()
      modifies this`list, this`current
      ensures Valid() && Now() == Removed(old(Now()), id) && list[current..] == old(list[current..])
      ensures forall i: nat :: FirstWithId(old(list[..current]), i, id) ==>
        list[..current] == old(list)[..i] + old(list)[i + 1..old(current)]
      ensures (forall e :: e in old(list[..current]) ==> e.id != id) ==> list == old(list) && current == old(current)
    {
      var i := Find(id);
      FoundOrNot(list[..current], id);
      FirstIsPosition(list[..current], id);
      if i < current {
        RemoveAt(i);
      }
    }

    /** PUBREL takes the place of the PUBLISH. */
    method Replace(id: int) returns (replaced: bool)
      requires Valid()
      modifies this`list
      ensures Valid() && Now() == Replaced(old(Now()), id)
      ensures replaced <==> exists e :: e in old(list[..current]) && e.id == id
      ensures !replaced ==> list == old(list)
      ensures forall i: nat :: FirstWithId(old(list[..current]), i, id) ==>
        list == old(list)[i := old(list)[i].(expiry := 0)]
    {
      var i := Find(id);
      FirstIsPosition(list[..current], id);
      FoundOrNot(list[..current], id);
      replaced := i < current;
      if replaced {
        list := list[i := list[i].(expiry := 0)];
      }
    }
  }

  ghost predicate FirstWithId(es: seq<Entry>, i: nat, id: int) {
    i < |es| && es[i].id == id && forall j :: 0 <= j < i ==> es[j].id != id
  }

  lemma FirstIsPosition(es: seq<Entry>, id: int)
    ensures forall i :: FirstWithId(es, i, id) ==> i == Position(es, id)
  {
    forall i | FirstWithId(es, i, id) ensures i == Position(es, id) {
      FirstMeans(es, (e: Entry) => e.id == id, i);
    }
  }

  lemma {:induction false} FoundOrNot(es: seq<Entry>, id: int)
    ensures Position(es, id) <= |es|
    ensures Position(es, id) < |es| <==> id in Ids(es)
    ensures Position(es, id) < |es| ==> es[Position(es, id)].id == id
  {
    if es != [] && es[0].id != id {
      FoundOrNot(es[1..], id);
      assert Ids(es) == [es[0].id] + Ids(es[1..]);
    } else if es != [] {
      assert Ids(es)[0] == id;
    }
  }
}
