/** The size of a PUBLISH packet: gmqtt/message.go against the encoder of gmqtt/pkg/packets. */
module PublishSize {
  type Byte = b: int | 0 <= b < 256

  type QoS = q: int | 0 <= q <= 2

  /** The largest variable byte integer (MQTT 5.0 section 1.5.5). */
  const MAX_REMAINING := 268435455

  const PAYLOAD_FORMAT: Byte := 0x01
  const MESSAGE_EXPIRY: Byte := 0x02
  const CONTENT_TYPE: Byte := 0x03
  const RESPONSE_TOPIC: Byte := 0x08
  const CORRELATION_DATA: Byte := 0x09
  const SUBSCRIPTION_IDENTIFIER: Byte := 0x0B
  const TOPIC_ALIAS: Byte := 0x23
  const USER: Byte := 0x26
  const PUBLISH: Byte := 3

  datatype Option<T> = None | Some(value: T)

  datatype UserProperty = UserProperty(key: seq<Byte>, value: seq<Byte>)

  /** `correlationData` is a Go slice: absent, or present and perhaps empty. */
  datatype Message = Message(dup: bool, qos: QoS, retained: bool, topic: seq<Byte>, payload: seq<Byte>, packetID: nat,
                             contentType: seq<Byte>, correlationData: Option<seq<Byte>>, messageExpiry: nat,
                             isText: bool, responseTopic: seq<Byte>, subIds: seq<nat>, user: seq<UserProperty>)

  datatype Properties = Properties(payloadFormat: Option<Byte>, messageExpiry: Option<nat>,
                                   contentType: Option<seq<Byte>>, responseTopic: Option<seq<Byte>>,
                                   correlationData: Option<seq<Byte>>, subIds: seq<nat>, topicAlias: Option<nat>,
                                   user: seq<UserProperty>)

  /** A PUBLISH packet; it has properties in MQTT 5 only. */
  datatype Publish = Publish(dup: bool, qos: QoS, retain: bool, topic: seq<Byte>, packetID: nat,
                             properties: Option<Properties>, payload: seq<Byte>)

  function NonEmpty(s: seq<Byte>): Option<seq<Byte>> {
    if s == [] then None else Some(s)
  }

  function MessageToPublish(m: Message, version5: bool): Publish {
    var properties :=
      if version5 then
        Some(Properties(if m.isText then Some(1) else None,
                        if m.messageExpiry != 0 then Some(m.messageExpiry) else None,
                        NonEmpty(m.contentType), NonEmpty(m.responseTopic), m.correlationData, m.subIds, None, m.user))
      else None;
    Publish(m.dup, m.qos, m.retained, m.topic, m.packetID, properties, m.payload)
  }

  /** A variable byte integer (MQTT 5.0 section 1.5.5). */
  function VarInt(n: nat): seq<Byte> {
    if n < 128 then [n] else [n % 128 + 128] + VarInt(n / 128)
  }

  function DecodeRemainLength(n: nat): Option<seq<Byte>> {
    if n <= MAX_REMAINING then Some(VarInt(n)) else None
  }

  function Uint16(n: nat): seq<Byte> {
    [n / 256 % 256, n % 256]
  }

  function Uint32(n: nat): seq<Byte> {
    [n / 0x100_0000 % 256, n / 0x1_0000 % 256, n / 0x100 % 256, n % 256]
  }

  function Binary(s: seq<Byte>): seq<Byte> {
    Uint16(|s|) + s
  }

  function OptByte(kind: Byte, v: Option<Byte>): seq<Byte> {
    if v.None? then [] else [kind, v.value]
  }

  function OptUint16(kind: Byte, v: Option<nat>): seq<Byte> {
    if v.None? then [] else [kind] + Uint16(v.value)
  }

  function OptUint32(kind: Byte, v: Option<nat>): seq<Byte> {
    if v.None? then [] else [kind] + Uint32(v.value)
  }

  function OptBinary(kind: Byte, s: Option<seq<Byte>>): seq<Byte> {
    if s.None? then [] else [kind] + Binary(s.value)
  }

  /** A number that does not fit is left out, its identifier is not. */
  function PackSubIds(ids: seq<nat>): seq<Byte>
    decreases |ids|
  {
    if ids == [] then []
    else
      var b := DecodeRemainLength(ids[|ids| - 1]);
      PackSubIds(ids[..|ids| - 1]) + ([SUBSCRIPTION_IDENTIFIER] + if b.Some? then b.value else [])
  }

  function PackUser(user: seq<UserProperty>): seq<Byte>
    decreases |user|
  {
    if user == [] then []
    else
      var u := user[|user| - 1];
      PackUser(user[..|user| - 1]) + ([USER] + Binary(u.key) + Binary(u.value))
  }

  function PropertyBytes(p: Properties): seq<Byte> {
    OptByte(PAYLOAD_FORMAT, p.payloadFormat) + OptUint32(MESSAGE_EXPIRY, p.messageExpiry) +
    OptBinary(CONTENT_TYPE, p.contentType) + OptBinary(RESPONSE_TOPIC, p.responseTopic) +
    OptBinary(CORRELATION_DATA, p.correlationData) + PackSubIds(p.subIds) + OptUint16(TOPIC_ALIAS, p.topicAlias) +
    PackUser(p.user)
  }

  /** `Properties.Pack`: the error for a length that does not fit is ignored. */
  function PackProperties(p: Properties): seq<Byte> {
    var body := PropertyBytes(p);
    var length := DecodeRemainLength(|body|);
    (if length.Some? then length.value else []) + body
  }

  /** Everything after the fixed header (MQTT 5.0 section 3.3). */
  function Body(p: Publish): seq<Byte> {
    Binary(p.topic) + (if p.qos == 1 || p.qos == 2 then Uint16(p.packetID) else []) +
    (if p.properties.Some? then PackProperties(p.properties.value) else []) + p.payload
  }

  function FirstByte(p: Publish): Byte {
    PUBLISH * 16 + (if p.dup then 8 else 0) + p.qos * 2 + (if p.retain then 1 else 0)
  }

  /** The packet, unless its remaining length does not fit. */
  function Pack(p: Publish): Option<seq<Byte>> {
    var length := DecodeRemainLength(|Body(p)|);
    if length.None? then None else Some([FirstByte(p)] + length.value + Body(p))
  }

  function GetVariableLength(l: nat): nat {
    if l <= 127 then 1
    else if l <= 16383 then 2
    else if l <= 2097151 then 3
    else if l <= 268435455 then 4
    else 0
  }

  /** The table of lengths agrees with the encoding. */
  lemma VarIntLength(n: nat)
    requires n <= MAX_REMAINING
    ensures |VarInt(n)| == GetVariableLength(n)
  {
    if n >= 128 {
      assert n / 128 >= 128 ==> n / 128 / 128 == n / 16384;
      assert n / 16384 >= 128 ==> n / 16384 / 128 == n / 2097152;
      assert |VarInt(n)| == 1 + |VarInt(n / 128)|;
      if n / 128 >= 128 {
        assert |VarInt(n / 128)| == 1 + |VarInt(n / 16384)|;
        if n / 16384 >= 128 {
          assert |VarInt(n / 16384)| == 1 + |VarInt(n / 2097152)|;
        }
      }
    }
  }

  lemma VarIntStep(n: nat, digit: Byte)
    requires digit == n % 128 + if n / 128 > 0 then 128 else 0
    ensures VarInt(n) == [digit] + if n / 128 > 0 then VarInt(n / 128) else []
    ensures |VarInt(n)| >= 1
  {
  }

  method MakeLength(length: nat) returns (r: Option<seq<Byte>>)
    ensures r == DecodeRemainLength(length)
  {
    var size := GetVariableLength(length);
    if size == 0 {
      return None;
    }
    VarIntLength(length);
    var result := new Byte[size];
    var left, i := length, 0;
    while true
      invariant i < size && result.Length == size
      invariant VarInt(length) == result[..i] + VarInt(left)
      decreases left
    {
      var encodedByte := left % 128;
      ghost var before := left;
      left := left / 128;
      if left > 0 {
        encodedByte := encodedByte + 128;
      }
      VarIntStep(before, encodedByte);
      hide VarInt;
      result[i] := encodedByte;
      assert result[..i + 1] == result[..i] + [encodedByte];
      i := i + 1;
      if left <= 0 {
        break;
      }
    }
    assert result[..] == result[..i];
    return Some(result[..]);
  }

  /** The case in which a present but empty correlation property is sent and not counted. */
  predicate EmptyCorrelation(m: Message, version5: bool) {
    version5 && m.correlationData == Some([])
  }

  lemma PackLength(p: Publish)
    ensures |Body(p)| <= MAX_REMAINING ==>
              Pack(p).Some? && |Pack(p).value| == 1 + GetVariableLength(|Body(p)|) + |Body(p)|
  {
    if |Body(p)| <= MAX_REMAINING {
      VarIntLength(|Body(p)|);
    }
    hide Body, VarInt;
  }

  lemma BodyLength(m: Message, version5: bool)
    ensures var p := MessageToPublish(m, version5);
            var plain := |m.payload| + 2 + |m.topic| + if m.qos > 0 then 2 else 0;
            if !version5 then |Body(p)| == plain
            else
              var n := |PropertyBytes(p.properties.value)|;
              |Body(p)| == plain + n + GetVariableLength(n)
  {
    if version5 {
      var p := MessageToPublish(m, version5).properties.value;
      if |PropertyBytes(p)| <= MAX_REMAINING {
        VarIntLength(|PropertyBytes(p)|);
      }
      hide PropertyBytes, VarInt;
    }
  }

  lemma PropertyBytesLength(m: Message)
    ensures |PropertyBytes(MessageToPublish(m, true).properties.value)| ==
            (if m.isText then 2 else 0) + (if m.messageExpiry != 0 then 5 else 0) +
            (if |m.contentType| != 0 then 3 + |m.contentType| else 0) +
            (if |m.responseTopic| != 0 then 3 + |m.responseTopic| else 0) +
            (if m.correlationData.Some? then 3 + |m.correlationData.value| else 0) +
            |PackSubIds(m.subIds)| + |PackUser(m.user)|
  {
    hide PackSubIds, PackUser;
  }

  lemma PackSubIdsStep(ids: seq<nat>, i: nat)
    requires i < |ids|
    ensures |PackSubIds(ids[..i + 1])| == |PackSubIds(ids[..i])| + 1 + GetVariableLength(ids[i])
  {
    assert ids[..i + 1][..i] == ids[..i];
    SubIdLength(ids[i]);
    hide DecodeRemainLength;
  }

  lemma PackUserStep(user: seq<UserProperty>, i: nat)
    requires i < |user|
    ensures |PackUser(user[..i + 1])| == |PackUser(user[..i])| + 5 + |user[i].key| + |user[i].value|
  {
    assert user[..i + 1][..i] == user[..i];
  }

  /** The loop over the subscription identifiers. */
  method AddSubIds(ids: seq<nat>, before: nat) returns (propertyLength: nat)
    ensures propertyLength == before + |PackSubIds(ids)|
  {
    propertyLength := before;
    assert |PackSubIds([])| == 0;
    hide PackSubIds, GetVariableLength;
    for i := 0 to |ids|
      invariant propertyLength == before + |PackSubIds(ids[..i])|
    {
      PackSubIdsStep(ids, i);
      propertyLength := propertyLength + 1;
      propertyLength := propertyLength + GetVariableLength(ids[i]);
    }
    assert ids[..|ids|] == ids;
  }

  /** The loop over the user properties. */
  method AddUser(user: seq<UserProperty>, before: nat) returns (propertyLength: nat)
    ensures propertyLength == before + |PackUser(user)|
  {
    propertyLength := before;
    assert |PackUser([])| == 0;
    hide PackUser;
    for i := 0 to |user|
      invariant propertyLength == before + |PackUser(user[..i])|
    {
      PackUserStep(user, i);
      propertyLength := propertyLength + 5 + |user[i].key| + |user[i].value|;
    }
    assert user[..|user|] == user;
  }

  /** The property length that `TotalBytes` adds up. */
  method PropertyLength(m: Message) returns (propertyLength: nat)
    ensures |PropertyBytes(MessageToPublish(m, true).properties.value)| ==
            propertyLength + if EmptyCorrelation(m, true) then 3 else 0
  {
    PropertyBytesLength(m);
    hide PropertyBytes, PackSubIds, PackUser;
    propertyLength := 0;
    if m.isText {
      propertyLength := propertyLength + 2;
    }
    if |m.contentType| != 0 {
      propertyLength := propertyLength + 3 + |m.contentType|;
    }
    if m.correlationData.Some? && |m.correlationData.value| != 0 {
      propertyLength := propertyLength + 3 + |m.correlationData.value|;
    }
    propertyLength := AddSubIds(m.subIds, propertyLength);
    if m.messageExpiry != 0 {
      propertyLength := propertyLength + 5;
    }
    if |m.responseTopic| != 0 {
      propertyLength := propertyLength + 3 + |m.responseTopic|;
    }
    propertyLength := AddUser(m.user, propertyLength);
  }

  /** `TotalBytes` is the length of the packet, except that it is less for an empty correlation property. */
  method TotalBytes(m: Message, version5: bool) returns (total: nat)
    ensures var p := MessageToPublish(m, version5);
            |Body(p)| <= MAX_REMAINING ==>
              Pack(p).Some? && total <= |Pack(p).value| &&
              (total == |Pack(p).value| <==> !EmptyCorrelation(m, version5))
    ensures total < 0x1_0000_0000
  {
    BodyLength(m, version5);
    PackLength(MessageToPublish(m, version5));
    ghost var body := |Body(MessageToPublish(m, version5))|;
    hide Body, Pack, PropertyBytes, GetVariableLength, MessageToPublish, EmptyCorrelation;
    var remainLength := |m.payload| + 2 + |m.topic|;
    if m.qos > 0 {
      remainLength := remainLength + 2;
    }
    if version5 {
      var propertyLength := PropertyLength(m);
      UncountedBytes(remainLength, propertyLength, EmptyCorrelation(m, true), body);
      remainLength := remainLength + propertyLength + GetVariableLength(propertyLength);
    } else {
      NothingEmpty(m);
    }
    total := AddHeader(remainLength);
  }

  lemma NothingEmpty(m: Message)
    ensures !EmptyCorrelation(m, false)
  {
  }

  method AddHeader(remainLength: nat) returns (total: nat)
    ensures total < 0x1_0000_0000
    ensures remainLength <= MAX_REMAINING ==> total == 1 + GetVariableLength(remainLength) + remainLength
  {
    if remainLength <= 127 {
      total := 2 + remainLength;
    } else if remainLength <= 16383 {
      total := 3 + remainLength;
    } else if remainLength <= 2097151 {
      total := 4 + remainLength;
    } else {
      total := (5 + remainLength) % 0x1_0000_0000;
    }
  }

  /** Three uncounted bytes always make the total too small, whatever the length fields do. */
  lemma UncountedBytes(plain: nat, n: nat, uncounted: bool, sent: nat)
    requires var m := n + if uncounted then 3 else 0; sent == plain + m + GetVariableLength(m)
    ensures var counted := plain + n + GetVariableLength(n);
            sent <= MAX_REMAINING ==>
              (counted <= MAX_REMAINING &&
              GetVariableLength(counted) + counted <= GetVariableLength(sent) + sent &&
              (GetVariableLength(counted) + counted == GetVariableLength(sent) + sent <==> !uncounted))
  {
  }

  lemma SubIdLength(id: nat)
    ensures GetVariableLength(id) == match DecodeRemainLength(id) case Some(b) => |b| case None => 0
  {
    if id <= MAX_REMAINING {
      VarIntLength(id);
    }
  }

  datatype Header = Header(length: nat, rest: seq<Byte>)

  /** `128 ^ k` for the bytes of a variable byte integer. */
  function Weight(k: nat): nat {
    if k == 0 then 1 else 128 * Weight(k - 1)
  }

  /** The reader of a remaining length, with its 32-bit shifts; at the end of the input it reads zeros. */
  function EncodeRemainLength(s: seq<Byte>, vbi: nat, k: nat): Option<Header>
    decreases |s|
  {
    var digit := if s == [] then 0 else s[0];
    var v := vbi + if 7 * k < 32 then digit % 128 * Weight(k) % 0x1_0000_0000 else 0;
    if v > MAX_REMAINING then None
    else if digit < 128 then Some(Header(v, if s == [] then [] else s[1..]))
    else EncodeRemainLength(s[1..], v, k + 1)
  }

  lemma SplitOff(n: nat, k: nat)
    requires k <= 3
    ensures n * Weight(k) == n % 128 * Weight(k) + n / 128 * Weight(k + 1)
    ensures 0 <= n % 128 * Weight(k) < 0x1_0000_0000 && 0 <= n / 128 * Weight(k + 1)
    ensures n >= 128 && n * Weight(k) <= MAX_REMAINING ==> k + 1 <= 3
  {
    assert n == n % 128 + 128 * (n / 128);
    if k == 0 {
      assert Weight(0) == 1 && Weight(1) == 128;
    } else if k == 1 {
      assert Weight(1) == 128 && Weight(2) == 16384;
    } else if k == 2 {
      assert Weight(2) == 16384 && Weight(3) == 2097152;
    } else {
      assert Weight(3) == 2097152 && Weight(4) == 268435456;
    }
  }

  lemma {:induction false} VarIntRoundTrip(n: nat, t: seq<Byte>, vbi: nat, k: nat)
    requires k <= 3 && vbi + n * Weight(k) <= MAX_REMAINING
    ensures EncodeRemainLength(VarInt(n) + t, vbi, k) == Some(Header(vbi + n * Weight(k), t))
    decreases n
  {
    var s := VarInt(n) + t;
    SplitOff(n, k);
    hide Weight, EncodeRemainLength;
    var part := n % 128 * Weight(k);
    var digit: Byte := if n < 128 then n else n % 128 + 128;
    var more := if n < 128 then [] else VarInt(n / 128);
    assert digit % 128 == n % 128 && VarInt(n) == [digit] + more;
    assert s == [digit] + (more + t);
    ReadDigit(digit, more + t, vbi, k, part);
    if n >= 128 {
      VarIntRoundTrip(n / 128, t, vbi + part, k + 1);
    } else {
      assert more + t == t && n / 128 == 0;
    }
  }

  lemma ReadDigit(digit: Byte, rest: seq<Byte>, vbi: nat, k: nat, part: nat)
    requires k <= 3 && part == digit % 128 * Weight(k) < 0x1_0000_0000 && vbi + part <= MAX_REMAINING
    ensures EncodeRemainLength([digit] + rest, vbi, k) ==
            if digit < 128 then Some(Header(vbi + part, rest)) else EncodeRemainLength(rest, vbi + part, k + 1)
  {
    var s := [digit] + rest;
    assert s[0] == digit && s[1..] == rest;
    assert part % 0x1_0000_0000 == part;
    hide Weight;
  }

  /** Reading the fixed header of a packet gives exactly the bytes that follow it: the packet marks its own end. */
  lemma PacketIsFramed(p: Publish, t: seq<Byte>)
    requires Pack(p).Some?
    ensures var packet := Pack(p).value;
            EncodeRemainLength((packet + t)[1..], 0, 0) == Some(Header(|Body(p)|, Body(p) + t))
  {
    PackSplits(p, t);
    hide *;
    ReadLength(|Body(p)|, Body(p) + t);
  }

  /** First byte, length and body. */
  lemma PackSplits(p: Publish, t: seq<Byte>)
    requires Pack(p).Some?
    ensures |Body(p)| <= MAX_REMAINING && (Pack(p).value + t)[1..] == VarInt(|Body(p)|) + (Body(p) + t)
  {
    hide Body, VarInt;
  }

  lemma ReadLength(n: nat, t: seq<Byte>)
    requires n <= MAX_REMAINING
    ensures EncodeRemainLength(VarInt(n) + t, 0, 0) == Some(Header(n, t))
  {
    VarIntRoundTrip(n, t, 0, 0);
    hide EncodeRemainLength, VarInt;
    assert Weight(0) == 1;
  }
}
