/** Message delivery of gmqtt/server/server.go: the two delivery modes and shared subscriptions. */
module Delivery {
  import opened Digraph
  import opened Positions

  type ClientID = string

  datatype Subscription = Subscription(shareName: string, topicFilter: string, id: nat, qos: int,
                                       noLocal: bool, retainAsPublished: bool)

  /** `body` stands for the fields that delivery only copies. */
  datatype Message = Message(qos: int, retained: bool, dup: bool, ids: seq<nat>, body: int)

  datatype Match = Match(client: ClientID, sub: Subscription)

  datatype Env = Env(queueQos0: bool, online: set<ClientID>)

  function Nonzero(ids: seq<nat>): seq<nat>
    decreases |ids|
  {
    if ids == [] then []
    else Nonzero(ids[..|ids| - 1]) + (if ids[|ids| - 1] != 0 then [ids[|ids| - 1]] else [])
  }

  /** What `addMsgToQueueLocked` queues: nothing for a QoS 0 message to an offline client when those are not kept. */
  function CopyFor(env: Env, client: ClientID, msg: Message, sub: Subscription, ids: seq<nat>): seq<Message> {
    if !env.queueQos0 && client !in env.online && msg.qos == 0 then []
    else [Message(if msg.qos > sub.qos then sub.qos else msg.qos, msg.retained && sub.retainAsPublished, false,
                  msg.ids + Nonzero(ids), msg.body)]
  }

  /** A copy of `msg` for `sub`: the lower QoS, retained as the subscription asks, and not a duplicate. */
  predicate Lowered(msg: Message, sub: Subscription, ids: seq<nat>, copy: Message) {
    && copy.qos <= msg.qos && copy.qos <= sub.qos && copy.qos in {msg.qos, sub.qos}
    && (copy.retained <==> msg.retained && sub.retainAsPublished)
    && !copy.dup && copy.body == msg.body && copy.ids == msg.ids + Nonzero(ids)
  }

  predicate Ignored(src: ClientID, m: Match) {
    m.sub.noLocal && m.client == src
  }

  /** The non-shared subscriptions of one client that match, in order. */
  function Own(src: ClientID, ms: seq<Match>, c: ClientID): seq<Subscription>
    decreases |ms|
  {
    if ms == [] then []
    else
      var m := ms[|ms| - 1];
      Own(src, ms[..|ms| - 1], c) +
      (if !Ignored(src, m) && m.sub.shareName == "" && m.client == c then [m.sub] else [])
  }

  function FullTopic(sub: Subscription): string {
    if sub.shareName != "" then "$share/" + sub.shareName + "/" + sub.topicFilter else sub.topicFilter
  }

  /** The members of one shared group that match, in order. */
  function Members(src: ClientID, ms: seq<Match>, topic: string): seq<Match>
    decreases |ms|
  {
    if ms == [] then []
    else
      var m := ms[|ms| - 1];
      Members(src, ms[..|ms| - 1], topic) +
      (if !Ignored(src, m) && m.sub.shareName != "" && FullTopic(m.sub) == topic then [m] else [])
  }

  /** "overlap": one copy per matching subscription. */
  function Overlapping(env: Env, c: ClientID, msg: Message, ss: seq<Subscription>): seq<Message>
    decreases |ss|
  {
    if ss == [] then []
    else Overlapping(env, c, msg, ss[..|ss| - 1]) + CopyFor(env, c, msg, ss[|ss| - 1], [ss[|ss| - 1].id])
  }

  /** The subscription that "onlyonce" keeps: a later one replaces it only with a higher QoS. */
  function Best(ss: seq<Subscription>): Subscription
    requires ss != []
    decreases |ss|
  {
    if |ss| == 1 then ss[0]
    else
      var b := Best(ss[..|ss| - 1]);
      if b.qos < ss[|ss| - 1].qos then ss[|ss| - 1] else b
  }

  function SubIds(ss: seq<Subscription>): seq<nat> {
    seq(|ss|, i requires 0 <= i < |ss| => ss[i].id)
  }

  /** "onlyonce": at most one copy. */
  function Once(env: Env, c: ClientID, msg: Message, ss: seq<Subscription>): seq<Message> {
    if ss == [] then [] else CopyFor(env, c, msg, Best(ss), SubIds(ss))
  }

  function MaxQos(ms: seq<Message>): int
    requires ms != []
    decreases |ms|
  {
    if |ms| == 1 then ms[0].qos
    else
      var q := MaxQos(ms[..|ms| - 1]);
      if q < ms[|ms| - 1].qos then ms[|ms| - 1].qos else q
  }

  /** The subscription ids the copies carry beyond those of the message itself, in order. */
  function AddedIds(base: nat, ms: seq<Message>): seq<nat>
    requires forall m :: m in ms ==> base <= |m.ids|
    decreases |ms|
  {
    if ms == [] then []
    else AddedIds(base, ms[..|ms| - 1]) + ms[|ms| - 1].ids[base..]
  }

  /** The ids that are added are the non-zero ones, in order. */
  lemma {:induction false} NonzeroKeeps(ids: seq<nat>) returns (at: seq<nat>)
    ensures KeptAt(ids, at, Nonzero(ids))
    ensures forall i: nat :: i in at <==> i < |ids| && ids[i] != 0
    decreases |ids|
  {
    at := [];
    if ids != [] {
      var init, last := ids[..|ids| - 1], ids[|ids| - 1];
      at := NonzeroKeeps(init);
      KeptAtEnd(init, at, Nonzero(init), last);
      assert init + [last] == ids;
      if last != 0 { at := at + [|init|]; }
    }
  }

  /** A client's own subscriptions are those of its matches that are not shared, and not a noLocal
      subscription of the publisher itself. */
  lemma {:induction false} OwnKeeps(src: ClientID, ms: seq<Match>, c: ClientID) returns (at: seq<nat>)
    ensures KeptAt(seq(|ms|, i requires 0 <= i < |ms| => ms[i].sub), at, Own(src, ms, c))
    ensures forall i: nat :: i in at <==>
              i < |ms| && ms[i].client == c && ms[i].sub.shareName == "" && (ms[i].sub.noLocal ==> c != src)
    decreases |ms|
  {
    at := [];
    if ms != [] {
      var init, m := ms[..|ms| - 1], ms[|ms| - 1];
      at := OwnKeeps(src, init, c);
      var subs := seq(|init|, i requires 0 <= i < |init| => init[i].sub);
      KeptAtEnd(subs, at, Own(src, init, c), m.sub);
      assert subs + [m.sub] == seq(|ms|, i requires 0 <= i < |ms| => ms[i].sub);
      if m.client == c && m.sub.shareName == "" && (m.sub.noLocal ==> c != src) { at := at + [|init|]; }
    }
  }

  /** A group is made of the shared matches with one share name and filter, without the publisher's own
      noLocal subscriptions. */
  lemma {:induction false} MembersKeeps(src: ClientID, ms: seq<Match>, topic: string) returns (at: seq<nat>)
    ensures KeptAt(ms, at, Members(src, ms, topic))
    ensures forall i: nat :: i in at <==>
              i < |ms| && ms[i].sub.shareName != "" && (ms[i].sub.noLocal ==> ms[i].client != src) &&
              topic == "$share/" + ms[i].sub.shareName + "/" + ms[i].sub.topicFilter
    decreases |ms|
  {
    at := [];
    if ms != [] {
      var init, m := ms[..|ms| - 1], ms[|ms| - 1];
      at := MembersKeeps(src, init, topic);
      KeptAtEnd(init, at, Members(src, init, topic), m);
      assert init + [m] == ms;
      if && m.sub.shareName != "" && (m.sub.noLocal ==> m.client != src)
         && topic == "$share/" + m.sub.shareName + "/" + m.sub.topicFilter {
        at := at + [|init|];
      }
    }
  }

  /** A client that takes the message gets one copy for each of its subscriptions. */
  lemma {:induction false} OverlapKeeps(env: Env, c: ClientID, msg: Message, ss: seq<Subscription>)
    requires env.queueQos0 || c in env.online || msg.qos != 0
    ensures |Overlapping(env, c, msg, ss)| == |ss|
    ensures forall k :: 0 <= k < |ss| ==> Lowered(msg, ss[k], [ss[k].id], Overlapping(env, c, msg, ss)[k])
    decreases |ss|
  {
    if ss != [] { OverlapKeeps(env, c, msg, ss[..|ss| - 1]); }
  }

  /** The first subscription of the highest QoS is kept. */
  lemma {:induction false} BestIsFirst(ss: seq<Subscription>) returns (k: nat)
    requires ss != []
    ensures k < |ss| && ss[k] == Best(ss)
    ensures forall i :: 0 <= i < |ss| ==> if i < k then ss[i].qos < ss[k].qos else ss[i].qos <= ss[k].qos
    decreases |ss|
  {
    k := 0;
    if |ss| > 1 {
      k := BestIsFirst(ss[..|ss| - 1]);
      if ss[k].qos < ss[|ss| - 1].qos { k := |ss| - 1; }
    }
  }

  lemma {:induction false} SubIdsStep(ss: seq<Subscription>)
    requires ss != []
    ensures SubIds(ss) == SubIds(ss[..|ss| - 1]) + [ss[|ss| - 1].id]
    ensures Nonzero(SubIds(ss)) == Nonzero(SubIds(ss[..|ss| - 1])) + Nonzero([ss[|ss| - 1].id])
  {
    var a, x := SubIds(ss[..|ss| - 1]), ss[|ss| - 1].id;
    assert SubIds(ss) == a + [x];
    assert (a + [x])[..|a|] == a;
    assert [x][..0] == [];
  }

  /** The single copy against the overlap copies. */
  ghost predicate Agree(msg: Message, over: seq<Message>, once: seq<Message>) {
    && |once| <= 1 && (once == [] <==> over == [])
    && (forall m :: m in over ==> |msg.ids| <= |m.ids| && !m.dup && m.body == msg.body)
    && (once != [] ==>
          && once[0].qos == MaxQos(over)
          && once[0].ids == msg.ids + AddedIds(|msg.ids|, over)
          && !once[0].dup && once[0].body == msg.body)
  }

  /** The copy for the first subscription of the highest QoS, with the ids of all. */
  ghost predicate LoweredToHighest(msg: Message, ss: seq<Subscription>, k: int, copy: Message) {
    && 0 <= k < |ss| && Lowered(msg, ss[k], SubIds(ss), copy)
    && forall i :: 0 <= i < |ss| ==> if i < k then ss[i].qos < ss[k].qos else ss[i].qos <= ss[k].qos
  }

  lemma OnceIsLowered(env: Env, c: ClientID, msg: Message, ss: seq<Subscription>)
    ensures Once(env, c, msg, ss) == [] <==> ss == [] || (!env.queueQos0 && c !in env.online && msg.qos == 0)
    ensures forall copy :: copy in Once(env, c, msg, ss) ==> exists k :: LoweredToHighest(msg, ss, k, copy)
  {
    if ss != [] {
      var k := BestIsFirst(ss);
      hide Best, SubIds, Nonzero;
      assert forall copy :: copy in Once(env, c, msg, ss) ==> LoweredToHighest(msg, ss, k, copy);
    }
  }

  /** The two modes serve the same clients; the single copy has the highest QoS among the overlap
      copies and all their non-zero subscription ids in order. */
  lemma {:induction false} ModesAgree(env: Env, c: ClientID, msg: Message, ss: seq<Subscription>)
    ensures Agree(msg, Overlapping(env, c, msg, ss), Once(env, c, msg, ss))
    ensures Once(env, c, msg, ss) == [] <==> ss == [] || (!env.queueQos0 && c !in env.online && msg.qos == 0)
    ensures forall copy :: copy in Once(env, c, msg, ss) ==> exists k :: LoweredToHighest(msg, ss, k, copy)
    decreases |ss|
  {
    OnceIsLowered(env, c, msg, ss);
    hide LoweredToHighest, Best;
    if ss != [] {
      var init, last := ss[..|ss| - 1], ss[|ss| - 1];
      ModesAgree(env, c, msg, init);
      if CopyFor(env, c, msg, last, [last.id]) != [] {
        hide Agree;
        SubIdsStep(ss);
        AgreeStep(env, c, msg, init, last);
        assert init + [last] == ss;
      } else {
        AllSkipped(env, c, msg, ss);
      }
    }
  }

  lemma AgreeStep(env: Env, c: ClientID, msg: Message, init: seq<Subscription>, last: Subscription)
    requires CopyFor(env, c, msg, last, [last.id]) != []
    requires Agree(msg, Overlapping(env, c, msg, init), Once(env, c, msg, init))
    ensures Agree(msg, Overlapping(env, c, msg, init + [last]), Once(env, c, msg, init + [last]))
  {
    var ss := init + [last];
    var over0, over := Overlapping(env, c, msg, init), Overlapping(env, c, msg, ss);
    var copy := CopyFor(env, c, msg, last, [last.id]);
    assert ss[..|ss| - 1] == init;
    SubIdsStep(ss);
    KeepStep(init, last);
    assert over == over0 + copy && over[..|over| - 1] == over0;
    AgreeIds(env, c, msg, init, last, over0);
    AgreeQos(env, c, msg, init, last, over0);
    hide Nonzero, SubIds, Best, Overlapping, AddedIds, MaxQos;
    assert forall m :: m in over ==> m in over0 || m == copy[0];
  }

  lemma AgreeQos(env: Env, c: ClientID, msg: Message, init: seq<Subscription>, last: Subscription, over0: seq<Message>)
    requires CopyFor(env, c, msg, last, [last.id]) != []
    requires if init == [] then over0 == []
             else over0 != [] && CopyFor(env, c, msg, Best(init), SubIds(init))[0].qos == MaxQos(over0)
    ensures CopyFor(env, c, msg, Best(init + [last]), SubIds(init + [last]))[0].qos ==
            MaxQos(over0 + CopyFor(env, c, msg, last, [last.id]))
  {
    var over := over0 + CopyFor(env, c, msg, last, [last.id]);
    assert over[..|over| - 1] == over0;
    KeepStep(init, last);
  }

  lemma AgreeIds(env: Env, c: ClientID, msg: Message, init: seq<Subscription>, last: Subscription, over0: seq<Message>)
    requires CopyFor(env, c, msg, last, [last.id]) != []
    requires forall m :: m in over0 ==> |msg.ids| <= |m.ids|
    requires if init == [] then over0 == []
             else CopyFor(env, c, msg, Best(init), SubIds(init))[0].ids == msg.ids + AddedIds(|msg.ids|, over0)
    ensures var over := over0 + CopyFor(env, c, msg, last, [last.id]);
            && (forall m :: m in over ==> |msg.ids| <= |m.ids|)
            && msg.ids + Nonzero(SubIds(init + [last])) == msg.ids + AddedIds(|msg.ids|, over)
  {
    var copy := CopyFor(env, c, msg, last, [last.id]);
    var over := over0 + copy;
    assert over[..|over| - 1] == over0;
    assert (init + [last])[..|init|] == init;
    SubIdsStep(init + [last]);
    assert copy[0].ids[|msg.ids|..] == Nonzero([last.id]);
    if init != [] {
      var ids := CopyFor(env, c, msg, Best(init), SubIds(init))[0].ids;
      assert ids[|msg.ids|..] == Nonzero(SubIds(init)) == AddedIds(|msg.ids|, over0);
    } else {
      assert SubIds(init) == [];
    }
  }

  lemma {:induction false} AllSkipped(env: Env, c: ClientID, msg: Message, ss: seq<Subscription>)
    requires !env.queueQos0 && c !in env.online && msg.qos == 0
    ensures Overlapping(env, c, msg, ss) == []
    decreases |ss|
  {
    if ss != [] { AllSkipped(env, c, msg, ss[..|ss| - 1]); }
  }

  /** One member picked from a shared group. */
  datatype Pick = Pick(topic: string, chosen: Match)

  function PickedFor(env: Env, picks: seq<Pick>, msg: Message, c: ClientID): seq<Message>
    decreases |picks|
  {
    if picks == [] then []
    else
      var p := picks[|picks| - 1];
      PickedFor(env, picks[..|picks| - 1], msg, c) +
      (if p.chosen.client == c then CopyFor(env, c, msg, p.chosen.sub, [p.chosen.sub.id]) else [])
  }

  /** A client that takes the message gets one copy for each pick of it. */
  lemma {:induction false} PickedKeeps(env: Env, picks: seq<Pick>, msg: Message, c: ClientID) returns (at: seq<nat>)
    requires env.queueQos0 || c in env.online || msg.qos != 0
    ensures forall i: nat :: i in at <==> i < |picks| && picks[i].chosen.client == c
    ensures forall j, k :: 0 <= j < k < |at| ==> at[j] < at[k]
    ensures |PickedFor(env, picks, msg, c)| == |at|
    ensures forall k :: 0 <= k < |at| && at[k] < |picks| ==>
      Lowered(msg, picks[at[k]].chosen.sub, [picks[at[k]].chosen.sub.id], PickedFor(env, picks, msg, c)[k])
    decreases |picks|
  {
    at := [];
    if picks != [] {
      var init := picks[..|picks| - 1];
      at := PickedKeeps(env, init, msg, c);
      assert forall k :: 0 <= k < |at| ==> at[k] in at;
      if picks[|init|].chosen.client == c { at := at + [|init|]; }
    }
  }

  function Topics(picks: seq<Pick>): seq<string> {
    seq(|picks|, i requires 0 <= i < |picks| => picks[i].topic)
  }

  /** Exactly one member of every shared group that matched. */
  ghost predicate OnePerGroup(src: ClientID, ms: seq<Match>, picks: seq<Pick>) {
    && NoDup(Topics(picks))
    && (forall t :: t in Topics(picks) <==> Members(src, ms, t) != [])
    && forall p :: p in picks ==> p.chosen in Members(src, ms, p.topic)
  }

  /** The queues after one message was delivered to the matching subscriptions. */
  ghost predicate Delivered(overlap: bool, env: Env, src: ClientID, ms: seq<Match>, msg: Message, picks: seq<Pick>,
                            before: map<ClientID, seq<Message>>, after: map<ClientID, seq<Message>>) {
    && after.Keys == before.Keys
    && forall c :: c in before ==> after[c] == before[c] + Received(overlap, env, src, ms, msg, picks, c)
  }

  function Received(overlap: bool, env: Env, src: ClientID, ms: seq<Match>, msg: Message, picks: seq<Pick>,
                    c: ClientID): seq<Message> {
    if overlap then Overlapping(env, c, msg, Own(src, ms, c)) + PickedFor(env, picks, msg, c)
    else PickedFor(env, picks, msg, c) + Once(env, c, msg, Own(src, ms, c))
  }

  /** What "onlyonce" remembers per client. */
  datatype Kept = Kept(sub: Subscription, subIDs: seq<nat>)

  ghost predicate GroupsListed(src: ClientID, ms: seq<Match>, sl: map<string, seq<Match>>) {
    forall t :: if t in sl then sl[t] == Members(src, ms, t) && sl[t] != [] else Members(src, ms, t) == []
  }

  ghost predicate BestKept(src: ClientID, ms: seq<Match>, mq: map<ClientID, Kept>) {
    forall c :: if c in mq then Own(src, ms, c) != [] && mq[c] == Kept(Best(Own(src, ms, c)), SubIds(Own(src, ms, c)))
                else Own(src, ms, c) == []
  }

  class Server {
    var queueStore: map<ClientID, seq<Message>>
    const env: Env

    constructor (env: Env, queues: map<ClientID, seq<Message>>)
      ensures this.env == env && queueStore == queues
    {
      this.env, queueStore := env, queues;
    }

    method AddMsgToQueue(client: ClientID, msg: Message, sub: Subscription, ids: seq<nat>)
      requires client in queueStore
      modifies this
      ensures queueStore == old(queueStore)[client := old(queueStore)[client] + CopyFor(env, client, msg, sub, ids)]
      ensures queueStore.Keys == old(queueStore).Keys
      ensures forall c :: c in queueStore && c != client ==> queueStore[c] == old(queueStore)[c]
      ensures !env.queueQos0 && client !in env.online && msg.qos == 0 ==> queueStore == old(queueStore)
      ensures env.queueQos0 || client in env.online || msg.qos != 0 ==>
        exists copy :: queueStore[client] == old(queueStore)[client] + [copy] && Lowered(msg, sub, ids, copy)
    {
      if !env.queueQos0 {
        if client !in env.online && msg.qos == 0 {
          assert queueStore[client] + [] == queueStore[client];
          return;
        }
      }
      var out := msg;
      if out.qos > sub.qos {
        out := out.(qos := sub.qos);
      }
      for i := 0 to |ids|
        invariant out == msg.(qos := out.qos, ids := msg.ids + Nonzero(ids[..i]))
        invariant out.qos == if msg.qos > sub.qos then sub.qos else msg.qos
        invariant queueStore == old(queueStore)
      {
        assert ids[..i + 1][..i] == ids[..i];
        if ids[i] != 0 {
          out := out.(ids := out.ids + [ids[i]]);
        }
      }
      assert ids[..|ids|] == ids;
      out := out.(dup := false);
      if !sub.retainAsPublished {
        out := out.(retained := false);
      }
      queueStore := queueStore[client := queueStore[client] + [out]];
    }

    method GiveIfQueued(client: ClientID, msg: Message, sub: Subscription, ids: seq<nat>)
      modifies this
      ensures Given(env, client, msg, sub, ids, old(queueStore), queueStore)
    {
      if client in queueStore {
        AddMsgToQueue(client, msg, sub, ids);
      }
    }
  }

  /** The queues after `client`, if it has one, was given the copy. */
  ghost predicate Given(env: Env, client: ClientID, msg: Message, sub: Subscription, ids: seq<nat>,
                        before: map<ClientID, seq<Message>>, after: map<ClientID, seq<Message>>) {
    && after.Keys == before.Keys
    && forall c :: c in before ==>
         after[c] == if c == client then before[c] + CopyFor(env, c, msg, sub, ids) else before[c]
  }

  class DeliverHandler {
    const srv: Server
    const overlap: bool
    const src: ClientID
    const msg: Message
    var sl: map<string, seq<Match>>
    var mq: map<ClientID, Kept>
    var matched: bool

    constructor (srv: Server, overlap: bool, src: ClientID, msg: Message)
      ensures this.srv == srv && this.overlap == overlap && this.src == src && this.msg == msg
      ensures sl == map[] && mq == map[] && !matched
    {
      this.srv, this.overlap, this.src, this.msg := srv, overlap, src, msg;
      sl, mq, matched := map[], map[], false;
    }

    /** The callback handed to the subscription store, for the match after `seen`. */
    method OnMatch(m: Match, ghost seen: seq<Match>, ghost start: map<ClientID, seq<Message>>)
      requires GroupsListed(src, seen, sl) && BestKept(src, if overlap then [] else seen, mq)
      requires Delivered(true, srv.env, src, if overlap then seen else [], msg, [], start, srv.queueStore)
      modifies this, srv
      ensures GroupsListed(src, seen + [m], sl) && BestKept(src, if overlap then [] else seen + [m], mq)
      ensures Delivered(true, srv.env, src, if overlap then seen + [m] else [], msg, [], start, srv.queueStore)
      ensures matched == (old(matched) || !Ignored(src, m))
    {
      MatchStep(src, seen, m);
      hide Own, Members, Received;
      if m.sub.noLocal && m.client == src {
        SameDelivered(srv.env, src, seen, seen + [m], msg, start, srv.queueStore);
        return;
      }
      matched := true;
      if m.sub.shareName != "" {
        SameDelivered(srv.env, src, seen, seen + [m], msg, start, srv.queueStore);
        var fullTopic := FullTopic(m.sub);
        sl := sl[fullTopic := (if fullTopic in sl then sl[fullTopic] else []) + [m]];
        return;
      }
      if overlap {
        QueueOverlap(m, seen, start);
      } else {
        KeepBest(m, seen);
      }
    }

    /** The "overlap" callback. */
    method QueueOverlap(m: Match, ghost seen: seq<Match>, ghost start: map<ClientID, seq<Message>>)
      requires !Ignored(src, m) && m.sub.shareName == ""
      requires Delivered(true, srv.env, src, seen, msg, [], start, srv.queueStore)
      modifies srv
      ensures Delivered(true, srv.env, src, seen + [m], msg, [], start, srv.queueStore)
    {
      OverlapGrows(srv.env, src, seen, m, msg);
      hide CopyFor, Received, Own;
      srv.GiveIfQueued(m.client, msg, m.sub, [m.sub.id]);
    }

    /** The "onlyonce" callback. */
    method KeepBest(m: Match, ghost seen: seq<Match>)
      requires !Ignored(src, m) && m.sub.shareName == "" && BestKept(src, seen, mq)
      modifies this`mq
      ensures BestKept(src, seen + [m], mq)
    {
      MatchStep(src, seen, m);
      KeepStep(Own(src, seen, m.client), m.sub);
      hide Own, Best, SubIds;
      if m.client !in mq {
        mq := mq[m.client := Kept(m.sub, [m.sub.id])];
        return;
      }
      var kept := mq[m.client];
      if kept.sub.qos < m.sub.qos {
        kept := kept.(sub := m.sub);
      }
      mq := mq[m.client := kept.(subIDs := kept.subIDs + [m.sub.id])];
    }

    /** `flush`: one random member per shared group, then the copies kept by "onlyonce". */
    method Flush(ghost ms: seq<Match>, ghost start: map<ClientID, seq<Message>>) returns (ghost picks: seq<Pick>)
      requires GroupsListed(src, ms, sl) && BestKept(src, if overlap then [] else ms, mq)
      requires Delivered(true, srv.env, src, if overlap then ms else [], msg, [], start, srv.queueStore)
      modifies srv
      ensures OnePerGroup(src, ms, picks)
      ensures Delivered(overlap, srv.env, src, ms, msg, picks, start, srv.queueStore)
    {
      ghost var before := srv.queueStore;
      picks := FlushShared(ms);
      ghost var shared := srv.queueStore;
      FlushKept();
      FlushedIsDelivered(overlap, srv.env, src, ms, msg, picks, mq, start, before, shared, srv.queueStore);
    }

    method FlushShared(ghost ms: seq<Match>) returns (ghost picks: seq<Pick>)
      requires GroupsListed(src, ms, sl)
      modifies srv
      ensures OnePerGroup(src, ms, picks)
      ensures PicksQueued(srv.env, picks, msg, old(srv.queueStore), srv.queueStore)
    {
      picks := [];
      NothingPicked(srv.env, sl, msg, srv.queueStore);
      var todo, done := sl.Keys, {};
      hide *;
      while todo != {}
        invariant done <= sl.Keys && todo == sl.Keys - done && PickedFrom(sl, done, picks)
        invariant PicksQueued(srv.env, picks, msg, old(srv.queueStore), srv.queueStore)
        decreases todo
      {
        var topic :| topic in todo;
        GroupInhabited(src, ms, sl, topic);
        var rs :| rs in sl[topic];
        ghost var before := srv.queueStore;
        srv.GiveIfQueued(rs.client, msg, rs.sub, [rs.sub.id]);
        PickedForStep(srv.env, picks, Pick(topic, rs), msg, old(srv.queueStore), before, srv.queueStore);
        PickedFromStep(sl, done, picks, topic, rs);
        picks := picks + [Pick(topic, rs)];
        todo, done := todo - {topic}, done + {topic};
      }
      assert done == sl.Keys;
      PickedFromAll(src, ms, sl, picks);
    }

    method FlushKept()
      modifies srv
      ensures srv.queueStore.Keys == old(srv.queueStore).Keys
      ensures forall c :: c in srv.queueStore ==>
        srv.queueStore[c] == old(srv.queueStore)[c] + KeptFor(srv.env, mq, msg, c)
    {
      hide CopyFor;
      var todo := mq.Keys;
      while todo != {}
        invariant todo <= mq.Keys && srv.queueStore.Keys == old(srv.queueStore).Keys
        invariant forall c :: c in srv.queueStore ==>
          srv.queueStore[c] == old(srv.queueStore)[c] + (if c in todo then [] else KeptFor(srv.env, mq, msg, c))
        decreases todo
      {
        var client :| client in todo;
        todo := todo - {client};
        srv.GiveIfQueued(client, msg, mq[client].sub, mq[client].subIDs);
      }
    }
  }

  lemma OverlapGrows(env: Env, src: ClientID, seen: seq<Match>, m: Match, msg: Message)
    requires !Ignored(src, m) && m.sub.shareName == ""
    ensures forall c :: Received(true, env, src, seen + [m], msg, [], c) == Received(true, env, src, seen, msg, [], c) +
              (if c == m.client then CopyFor(env, c, msg, m.sub, [m.sub.id]) else [])
  {
    MatchStep(src, seen, m);
    hide Own, CopyFor;
    forall c
      ensures Received(true, env, src, seen + [m], msg, [], c) == Received(true, env, src, seen, msg, [], c) +
              (if c == m.client then CopyFor(env, c, msg, m.sub, [m.sub.id]) else [])
    {
      var own := Own(src, seen, c);
      assert (own + [m.sub])[..|own|] == own;
      assert PickedFor(env, [], msg, c) == [];
    }
  }

  lemma SameDelivered(env: Env, src: ClientID, a: seq<Match>, b: seq<Match>, msg: Message,
                      before: map<ClientID, seq<Message>>, after: map<ClientID, seq<Message>>)
    requires forall c :: Own(src, a, c) == Own(src, b, c)
    ensures Delivered(true, env, src, a, msg, [], before, after) ==>
            Delivered(true, env, src, b, msg, [], before, after)
  {
    hide Own, Overlapping;
    assert forall c :: Received(true, env, src, a, msg, [], c) == Received(true, env, src, b, msg, [], c);
  }

  /** `deliverMessage`: feeds every match to the handler and flushes it. */
  method DeliverMessage(srv: Server, overlap: bool, src: ClientID, msg: Message, ms: seq<Match>)
    returns (matched: bool, ghost picks: seq<Pick>)
    modifies srv
    ensures OnePerGroup(src, ms, picks)
    ensures Delivered(overlap, srv.env, src, ms, msg, picks, old(srv.queueStore), srv.queueStore)
    ensures forall c :: c in srv.queueStore ==>
      var own, picked := Own(src, ms, c), PickedFor(srv.env, picks, msg, c);
      srv.queueStore[c] == old(srv.queueStore)[c] +
        if overlap then Overlapping(srv.env, c, msg, own) + picked else picked + Once(srv.env, c, msg, own)
    ensures matched <==> exists m :: m in ms && (m.sub.noLocal ==> m.client != src)
  {
    var d := new DeliverHandler(srv, overlap, src, msg);
    NothingMatched(srv.env, src, msg, srv.queueStore);
    hide GroupsListed, BestKept, Delivered;
    for i := 0 to |ms|
      invariant fresh(d) && d.srv == srv && d.overlap == overlap && d.src == src && d.msg == msg
      invariant GroupsListed(src, ms[..i], d.sl) && BestKept(src, if overlap then [] else ms[..i], d.mq)
      invariant Delivered(true, srv.env, src, if overlap then ms[..i] else [], msg, [], old(srv.queueStore),
                          srv.queueStore)
      invariant d.matched <==> exists k :: 0 <= k < i && !Ignored(src, ms[k])
    {
      assert ms[..i + 1] == ms[..i] + [ms[i]];
      d.OnMatch(ms[i], ms[..i], old(srv.queueStore));
    }
    assert ms[..|ms|] == ms;
    matched := d.matched;
    picks := d.Flush(ms, old(srv.queueStore));
  }

  lemma NothingMatched(env: Env, src: ClientID, msg: Message, queues: map<ClientID, seq<Message>>)
    ensures GroupsListed(src, [], map[]) && BestKept(src, [], map[])
    ensures Delivered(true, env, src, [], msg, [], queues, queues)
  {
  }

  /** `picks` holds one member of each group in `done`. */
  ghost predicate PickedFrom(sl: map<string, seq<Match>>, done: set<string>, picks: seq<Pick>)
    requires done <= sl.Keys
  {
    && NoDup(Topics(picks))
    && (forall t :: t in Topics(picks) <==> t in done)
    && forall p :: p in picks ==> p.topic in done && p.chosen in sl[p.topic]
  }

  /** Every client that has a queue got its picks appended, and no queue changed otherwise. */
  ghost predicate PicksQueued(env: Env, picks: seq<Pick>, msg: Message,
                              before: map<ClientID, seq<Message>>, after: map<ClientID, seq<Message>>) {
    after.Keys == before.Keys && forall c :: c in before ==> after[c] == before[c] + PickedFor(env, picks, msg, c)
  }

  lemma NothingPicked(env: Env, sl: map<string, seq<Match>>, msg: Message, queues: map<ClientID, seq<Message>>)
    ensures PickedFrom(sl, {}, []) && PicksQueued(env, [], msg, queues, queues)
  {
  }

  lemma GroupInhabited(src: ClientID, ms: seq<Match>, sl: map<string, seq<Match>>, topic: string)
    requires GroupsListed(src, ms, sl) && topic in sl
    ensures exists m :: m in sl[topic]
  {
    assert sl[topic][0] in sl[topic];
  }

  lemma PickedFromStep(sl: map<string, seq<Match>>, done: set<string>, picks: seq<Pick>, topic: string, m: Match)
    requires done <= sl.Keys && PickedFrom(sl, done, picks) && topic in sl.Keys - done && m in sl[topic]
    ensures PickedFrom(sl, done + {topic}, picks + [Pick(topic, m)])
  {
    assert Topics(picks + [Pick(topic, m)]) == Topics(picks) + [topic];
  }

  lemma PickedFromAll(src: ClientID, ms: seq<Match>, sl: map<string, seq<Match>>, picks: seq<Pick>)
    requires GroupsListed(src, ms, sl) && PickedFrom(sl, sl.Keys, picks)
    ensures OnePerGroup(src, ms, picks)
  {
    forall t ensures t in Topics(picks) <==> Members(src, ms, t) != [] {
      assert t in sl <==> Members(src, ms, t) != [];
    }
  }

  lemma PickedForStep(env: Env, picks: seq<Pick>, p: Pick, msg: Message, start: map<ClientID, seq<Message>>,
                      before: map<ClientID, seq<Message>>, after: map<ClientID, seq<Message>>)
    requires PicksQueued(env, picks, msg, start, before)
    requires Given(env, p.chosen.client, msg, p.chosen.sub, [p.chosen.sub.id], before, after)
    ensures PicksQueued(env, picks + [p], msg, start, after)
  {
    hide CopyFor;
    assert (picks + [p])[..|picks|] == picks;
  }

  lemma FlushedIsDelivered(overlap: bool, env: Env, src: ClientID, ms: seq<Match>, msg: Message, picks: seq<Pick>,
                           mq: map<ClientID, Kept>, start: map<ClientID, seq<Message>>,
                           before: map<ClientID, seq<Message>>, shared: map<ClientID, seq<Message>>,
                           after: map<ClientID, seq<Message>>)
    requires BestKept(src, if overlap then [] else ms, mq)
    requires Delivered(true, env, src, if overlap then ms else [], msg, [], start, before)
    requires PicksQueued(env, picks, msg, before, shared) && after.Keys == shared.Keys
    requires forall c :: c in shared ==> after[c] == shared[c] + KeptFor(env, mq, msg, c)
    ensures Delivered(overlap, env, src, ms, msg, picks, start, after)
  {
    hide CopyFor, Received, PickedFor, KeptFor, BestKept;
    forall c | c in before ensures after[c] == start[c] + Received(overlap, env, src, ms, msg, picks, c) {
      FlushedFor(overlap, env, src, ms, msg, picks, mq, c);
      Regroup(start[c], Received(true, env, src, if overlap then ms else [], msg, [], c),
              PickedFor(env, picks, msg, c), KeptFor(env, mq, msg, c));
    }
  }

  lemma Regroup<T>(a: seq<T>, b: seq<T>, c: seq<T>, d: seq<T>)
    ensures a + b + c + d == a + (b + c + d)
  {
  }

  function KeptFor(env: Env, mq: map<ClientID, Kept>, msg: Message, c: ClientID): seq<Message> {
    if c in mq then CopyFor(env, c, msg, mq[c].sub, mq[c].subIDs) else []
  }

  lemma FlushedFor(overlap: bool, env: Env, src: ClientID, ms: seq<Match>, msg: Message, picks: seq<Pick>,
                   mq: map<ClientID, Kept>, c: ClientID)
    requires BestKept(src, if overlap then [] else ms, mq)
    ensures Received(true, env, src, if overlap then ms else [], msg, [], c) + PickedFor(env, picks, msg, c) +
            KeptFor(env, mq, msg, c) == Received(overlap, env, src, ms, msg, picks, c)
  {
    assert PickedFor(env, [], msg, c) == [];
    if overlap {
      assert Own(src, [], c) == [] && c !in mq;
    } else {
      assert Own(src, [], c) == [] && Overlapping(env, c, msg, []) == [];
      assert KeptFor(env, mq, msg, c) == Once(env, c, msg, Own(src, ms, c));
    }
  }

  lemma MatchStep(src: ClientID, seen: seq<Match>, m: Match)
    ensures forall c :: Own(src, seen + [m], c) ==
              if !Ignored(src, m) && m.sub.shareName == "" && m.client == c then Own(src, seen, c) + [m.sub]
              else Own(src, seen, c)
    ensures forall t :: Members(src, seen + [m], t) ==
              if !Ignored(src, m) && m.sub.shareName != "" && FullTopic(m.sub) == t then Members(src, seen, t) + [m]
              else Members(src, seen, t)
  {
    assert (seen + [m])[..|seen|] == seen;
  }

  lemma KeepStep(own: seq<Subscription>, sub: Subscription)
    ensures SubIds(own + [sub]) == SubIds(own) + [sub.id] && (own == [] ==> SubIds(own) == [])
    ensures Best(own + [sub]) == if own != [] && !(Best(own).qos < sub.qos) then Best(own) else sub
  {
    assert (own + [sub])[..|own|] == own;
  }
}
