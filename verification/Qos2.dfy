/** The receiving side of QoS 2 in gmqtt/server/client.go: the set of unacknowledged packet ids. */
module Qos2 {
  const SUCCESS := 0x00
  const NOT_MATCHING_SUBSCRIBERS := 0x10
  const UNSPECIFIED_ERROR := 0x80

  /** `refused` packets fail the retain or topic alias checks, before the unack set is touched. */
  datatype Publish = Publish(qos: int, pid: int, refused: bool)

  /** What the message hook and the subscription store answer: `dropped` when the hook takes the message away. */
  datatype Verdict = Verdict(error: HookError, dropped: bool, matched: bool)

  datatype HookError = NoError | Failed(code: nat)

  datatype Reply = Refused | NoReply | Puback(code: nat) | Pubrec(code: nat)

  datatype Input = Pub(pub: Publish, verdict: Verdict) | Rel(pid: int)

  predicate Accepts(v: Verdict) {
    v.error.NoError? && !v.dropped
  }

  /** An error code makes the server forget the packet id, in MQTT 5 only. */
  predicate ErrorCode(version5: bool, v: Verdict) {
    version5 && v.error.Failed? && v.error.code >= UNSPECIFIED_ERROR
  }

  /** The unack set after one packet. */
  function Step(version5: bool, unack: set<int>, i: Input): set<int> {
    match i
    case Rel(pid) => unack - {pid}
    case Pub(p, v) =>
      if p.refused || p.qos != 2 || (p.pid !in unack && ErrorCode(version5, v)) then unack else unack + {p.pid}
  }

  /** A QoS 2 PUBLISH of `pid` is handed to `deliverMessage`. */
  predicate Delivers(unack: set<int>, i: Input, pid: int) {
    i.Pub? && !i.pub.refused && i.pub.qos == 2 && i.pub.pid == pid && pid !in unack && Accepts(i.verdict)
  }

  /** The id is taken out of the unack set again because of an error code. */
  predicate Forgets(version5: bool, unack: set<int>, i: Input, pid: int) {
    i.Pub? && !i.pub.refused && i.pub.qos == 2 && i.pub.pid == pid && pid !in unack && ErrorCode(version5, i.verdict)
  }

  function After(version5: bool, start: set<int>, inputs: seq<Input>): set<int>
    decreases |inputs|
  {
    if inputs == [] then start
    else Step(version5, After(version5, start, inputs[..|inputs| - 1]), inputs[|inputs| - 1])
  }

  predicate DeliveredAt(version5: bool, start: set<int>, inputs: seq<Input>, k: nat, pid: int)
    requires k < |inputs|
  {
    Delivers(After(version5, start, inputs[..k]), inputs[k], pid)
  }

  predicate ForgottenAt(version5: bool, start: set<int>, inputs: seq<Input>, k: nat, pid: int)
    requires k < |inputs|
  {
    Forgets(version5, After(version5, start, inputs[..k]), inputs[k], pid)
  }

  /** No PUBREL of `pid` from position `from` on. */
  predicate NoPubrel(inputs: seq<Input>, from: nat, pid: int) {
    forall k :: from <= k < |inputs| ==> inputs[k] != Rel(pid)
  }

  /** Judged from the packet alone: a PUBLISH after which the id is held whatever happened before. */
  predicate Holds(version5: bool, i: Input, pid: int) {
    i.Pub? && !i.pub.refused && i.pub.qos == 2 && i.pub.pid == pid && !ErrorCode(version5, i.verdict)
  }

  lemma {:induction false} StaysHeld(version5: bool, start: set<int>, inputs: seq<Input>, i: nat, pid: int)
    requires i <= |inputs| && pid in After(version5, start, inputs[..i]) && NoPubrel(inputs, i, pid)
    ensures pid in After(version5, start, inputs)
    decreases |inputs|
  {
    if i == |inputs| {
      assert inputs[..i] == inputs;
    } else {
      var init := inputs[..|inputs| - 1];
      assert init[..i] == inputs[..i];
      forall k | i <= k < |init| ensures init[k] != Rel(pid) { assert init[k] == inputs[k]; }
      StaysHeld(version5, start, init, i, pid);
    }
  }

  /** Once delivered, the id is held until a PUBREL. */
  lemma HeldAfterDelivery(version5: bool, start: set<int>, inputs: seq<Input>, i: nat, j: nat, pid: int)
    requires i < j <= |inputs| && DeliveredAt(version5, start, inputs, i, pid) && NoPubrel(inputs[..j], i + 1, pid)
    ensures pid in After(version5, start, inputs[..j])
  {
    var upTo := inputs[..i + 1];
    assert upTo[..|upTo| - 1] == inputs[..i] && upTo[|upTo| - 1] == inputs[i];
    assert inputs[..j][..i + 1] == upTo;
    StaysHeld(version5, start, inputs[..j], i + 1, pid);
  }

  /** Between two deliveries of the same packet id there is a PUBREL of that id. */
  lemma DeliveredAtMostOnce(version5: bool, start: set<int>, inputs: seq<Input>, i: nat, j: nat, pid: int)
    requires i < j < |inputs|
    requires DeliveredAt(version5, start, inputs, i, pid) && DeliveredAt(version5, start, inputs, j, pid)
    ensures exists k :: i < k < j && inputs[k] == Rel(pid)
  {
    if NoPubrel(inputs[..j], i + 1, pid) {
      HeldAfterDelivery(version5, start, inputs, i, j, pid);
    } else {
      var k :| i + 1 <= k < j && inputs[..j][k] == Rel(pid);
      assert inputs[k] == Rel(pid);
    }
  }

  /** An id forgotten because of an error code was not delivered since its last PUBREL, nor by this packet. */
  lemma ForgottenWasNotDelivered(version5: bool, start: set<int>, inputs: seq<Input>, i: nat, j: nat, pid: int)
    requires i <= j < |inputs|
    requires DeliveredAt(version5, start, inputs, i, pid) && ForgottenAt(version5, start, inputs, j, pid)
    ensures exists k :: i < k < j && inputs[k] == Rel(pid)
  {
    if i < j && !NoPubrel(inputs[..j], i + 1, pid) {
      var k :| i + 1 <= k < j && inputs[..j][k] == Rel(pid);
      assert inputs[k] == Rel(pid);
    } else if i < j {
      HeldAfterDelivery(version5, start, inputs, i, j, pid);
    }
  }

  /** What the unack set holds, said without the set. */
  ghost predicate HeldSincePubrel(version5: bool, inputs: seq<Input>, pid: int) {
    exists i :: 0 <= i < |inputs| && Holds(version5, inputs[i], pid) && NoPubrel(inputs, i + 1, pid)
  }

  lemma {:induction false} UnackIsExact(version5: bool, inputs: seq<Input>, pid: int)
    ensures pid in After(version5, {}, inputs) <==> HeldSincePubrel(version5, inputs, pid)
    decreases |inputs|
  {
    if inputs != [] {
      var init, last := inputs[..|inputs| - 1], inputs[|inputs| - 1];
      UnackIsExact(version5, init, pid);
      if HeldSincePubrel(version5, init, pid) && last != Rel(pid) {
        var i :| 0 <= i < |init| && Holds(version5, init[i], pid) && NoPubrel(init, i + 1, pid);
        assert Holds(version5, inputs[i], pid) && NoPubrel(inputs, i + 1, pid);
      }
      if Holds(version5, last, pid) {
        assert NoPubrel(inputs, |inputs|, pid);
      }
      if HeldSincePubrel(version5, inputs, pid) {
        var i :| 0 <= i < |inputs| && Holds(version5, inputs[i], pid) && NoPubrel(inputs, i + 1, pid);
        assert i < |init| ==> Holds(version5, init[i], pid) && NoPubrel(init, i + 1, pid);
      }
    }
  }

  /** Exactly which PUBLISH packets are delivered: accepted, and none since the last PUBREL of the id is held. */
  lemma DeliveryIsExact(version5: bool, inputs: seq<Input>, j: nat)
    requires j < |inputs| && inputs[j].Pub? && !inputs[j].pub.refused && inputs[j].pub.qos == 2
    ensures DeliveredAt(version5, {}, inputs, j, inputs[j].pub.pid) <==>
            inputs[j].verdict.error.NoError? && !inputs[j].verdict.dropped &&
            !HeldSincePubrel(version5, inputs[..j], inputs[j].pub.pid)
  {
    UnackIsExact(version5, inputs[..j], inputs[j].pub.pid);
  }

  /** MQTT 3.1.1 has no error code: a PUBLISH the hook refuses keeps its id, and its repetition is dropped. */
  lemma RefusedMessageStaysHeld(pid: int, code: nat, matched: bool, again: Verdict)
    ensures var first := Pub(Publish(2, pid, false), Verdict(Failed(code), false, matched));
            var second := Pub(Publish(2, pid, false), again);
            && !DeliveredAt(false, {}, [first, second], 0, pid)
            && !DeliveredAt(false, {}, [first, second], 1, pid)
  {
    var first := Pub(Publish(2, pid, false), Verdict(Failed(code), false, matched));
    var inputs := [first, Pub(Publish(2, pid, false), again)];
    assert inputs[..1] == [first] && [first][..0] == [];
    assert Holds(false, inputs[..1][0], pid) && NoPubrel(inputs[..1], 1, pid);
    DeliveryIsExact(false, inputs, 1);
  }

  /** The receiving half of a connection. */
  class Receiver {
    const version5: bool
    var unack: set<int>

    constructor (version5: bool)
      ensures this.version5 == version5 && unack == {}
    {
      this.version5, unack := version5, {};
    }

    method SetUnack(pid: int) returns (exist: bool)
      modifies this
      ensures exist == (pid in old(unack)) && unack == old(unack) + {pid}
    {
      exist := pid in unack;
      unack := unack + {pid};
    }

    method PublishHandler(pub: Publish, verdict: Verdict) returns (reply: Reply, delivered: bool)
      modifies this
      ensures unack == Step(version5, old(unack), Pub(pub, verdict))
      ensures pub.qos == 2 ==> (delivered <==> Delivers(old(unack), Pub(pub, verdict), pub.pid))
      ensures pub.qos != 2 ==> (delivered <==> !pub.refused && Accepts(verdict))
      ensures delivered <==> !pub.refused && verdict.error.NoError? && !verdict.dropped &&
                             (pub.qos == 2 ==> pub.pid !in old(unack))
      ensures unack ==
        if pub.refused || pub.qos != 2 then old(unack)
        else if version5 && pub.pid !in old(unack) && verdict.error.Failed? && verdict.error.code >= 0x80
        then old(unack)
        else old(unack) + {pub.pid}
      ensures reply.Refused? <==> pub.refused
      ensures reply.Pubrec? <==> pub.qos == 2 && !pub.refused
      ensures reply.Puback? <==> pub.qos == 1 && !pub.refused
      ensures reply.Pubrec? && reply.code >= 0x80 <==>
              Forgets(version5, old(unack), Pub(pub, verdict), pub.pid)
      ensures reply.Puback? || reply.Pubrec? ==>
        reply.code == if !version5 || (delivered && verdict.matched) then 0
                      else if verdict.error.Failed? && !(pub.qos == 2 && pub.pid in old(unack)) then verdict.error.code
                      else 0x10
    {
      if pub.refused {
        return Refused, false;
      }
      var dup := false;
      if pub.qos == 2 {
        var exist := SetUnack(pub.pid);
        if exist {
          dup := true;
        }
      }
      var err, topicMatched := NoError, false;
      delivered := false;
      if !dup {
        err := verdict.error;
        if !verdict.dropped && err.NoError? {
          delivered := true;
          topicMatched := verdict.matched;
        }
      }
      var code := SUCCESS;
      if version5 {
        if !topicMatched && err.NoError? {
          code := NOT_MATCHING_SUBSCRIBERS;
        }
        if err.Failed? {
          code := err.code;
        }
      }
      reply := NoReply;
      if pub.qos == 1 {
        reply := Puback(code);
      }
      if pub.qos == 2 {
        reply := Pubrec(code);
        if code >= UNSPECIFIED_ERROR {
          unack := unack - {pub.pid};
        }
      }
    }

    method PubrelHandler(pid: int)
      modifies this
      ensures unack == Step(version5, old(unack), Rel(pid)) == old(unack) - {pid}
    {
      unack := unack - {pid};
    }

    /** A connection from its first packet on: which QoS 2 packets of the run were delivered. */
    method Serve(inputs: seq<Input>) returns (delivered: seq<bool>)
      requires unack == {}
      modifies this
      ensures |delivered| == |inputs| && unack == After(version5, {}, inputs)
      ensures forall j :: 0 <= j < |inputs| && inputs[j].Pub? && inputs[j].pub.qos == 2 ==>
        (delivered[j] <==> DeliveredAt(version5, {}, inputs, j, inputs[j].pub.pid))
    {
      delivered := [];
      for n := 0 to |inputs|
        invariant |delivered| == n && unack == After(version5, {}, inputs[..n])
        invariant forall j :: 0 <= j < n && inputs[j].Pub? && inputs[j].pub.qos == 2 ==>
          (delivered[j] <==> DeliveredAt(version5, {}, inputs, j, inputs[j].pub.pid))
      {
        assert inputs[..n + 1][..n] == inputs[..n];
        match inputs[n] {
          case Pub(pub, verdict) =>
            var _, given := PublishHandler(pub, verdict);
            delivered := delivered + [given];
          case Rel(pid) =>
            PubrelHandler(pid);
            delivered := delivered + [false];
        }
      }
      assert inputs[..|inputs|] == inputs;
    }
  }
}
