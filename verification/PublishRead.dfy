/** Reading a PUBLISH packet back: the reader of gmqtt/pkg/packets against its writer. */
module PublishRead {
  import opened PublishSize

  /** What the UTF-8 decoder of Go's library accepts as a string and as a topic name. */
  datatype Checks = Checks(utf8: seq<Byte> -> bool, topicName: seq<Byte> -> bool)

  datatype Read<T> = Read(value: T, rest: seq<Byte>)

  const NoProperties := Properties(None, None, None, None, None, [], None, [])

  function ReadUint16(s: seq<Byte>): Option<Read<nat>> {
    if |s| < 2 then None else Some(Read(s[0] as nat * 256 + s[1], s[2..]))
  }

  function ReadUint32(s: seq<Byte>): Option<Read<nat>> {
    if |s| < 4 then None
    else Some(Read(s[0] as nat * 0x100_0000 + s[1] as nat * 0x1_0000 + s[2] as nat * 0x100 + s[3], s[4..]))
  }

  /** Two bytes of length and the bytes themselves. */
  function ReadBinary(s: seq<Byte>): Option<Read<seq<Byte>>> {
    match ReadUint16(s)
    case None => None
    case Some(n) => if |n.rest| < n.value then None else Some(Read(n.rest[..n.value], n.rest[n.value..]))
  }

  function ReadText(c: Checks, s: seq<Byte>): Option<Read<seq<Byte>>> {
    match ReadBinary(s)
    case None => None
    case Some(b) => if c.utf8(b.value) then Some(b) else None
  }

  /** One property. Every one but the user property is refused when it comes twice, and so is every one that a server
      does not take in a PUBLISH: a subscription identifier is one of those. */
  function ReadProperty(c: Checks, p: Properties, s: seq<Byte>): (r: Option<Read<Properties>>)
    requires s != []
    ensures r.Some? ==> |r.value.rest| < |s|
  {
    var body := s[1..];
    match s[0]
    case 0x01 =>
      if p.payloadFormat.Some? || body == [] || body[0] > 1 then None
      else Some(Read(p.(payloadFormat := Some(body[0])), body[1..]))
    case 0x02 =>
      var n := ReadUint32(body);
      if p.messageExpiry.Some? || n.None? then None
      else Some(Read(p.(messageExpiry := Some(n.value.value)), n.value.rest))
    case 0x03 =>
      var b := ReadText(c, body);
      if p.contentType.Some? || b.None? then None
      else Some(Read(p.(contentType := Some(b.value.value)), b.value.rest))
    case 0x08 =>
      var b := ReadText(c, body);
      if p.responseTopic.Some? || b.None? || !c.topicName(b.value.value) then None
      else Some(Read(p.(responseTopic := Some(b.value.value)), b.value.rest))
    case 0x09 =>
      var b := ReadBinary(body);
      if p.correlationData.Some? || b.None? then None
      else Some(Read(p.(correlationData := Some(b.value.value)), b.value.rest))
    case 0x23 =>
      var n := ReadUint16(body);
      if p.topicAlias.Some? || n.None? || n.value.value == 0 then None
      else Some(Read(p.(topicAlias := Some(n.value.value)), n.value.rest))
    case 0x26 =>
      var k := ReadText(c, body);
      if k.None? then None
      else
        var v := ReadText(c, k.value.rest);
        if v.None? then None
        else Some(Read(p.(user := p.user + [UserProperty(k.value.value, v.value.value)]), v.value.rest))
    case _ => None
  }

  function ReadProperties(c: Checks, p: Properties, s: seq<Byte>): Option<Properties>
    decreases |s|
  {
    if s == [] then Some(p)
    else
      match ReadProperty(c, p, s)
      case None => None
      case Some(r) => ReadProperties(c, r.value, r.rest)
  }

  /** The loop of `Properties.Unpack` over the bytes of the properties. */
  method UnpackLoop(c: Checks, bytes: seq<Byte>) returns (r: Option<Properties>)
    ensures r == ReadProperties(c, NoProperties, bytes)
  {
    var p, left := NoProperties, bytes;
    hide ReadProperty;
    while left != []
      invariant ReadProperties(c, p, left) == ReadProperties(c, NoProperties, bytes)
      decreases |left|
    {
      var next := ReadProperty(c, p, left);
      if next.None? {
        return None;
      }
      p, left := next.value.value, next.value.rest;
    }
    return Some(p);
  }

  /** `Properties.Unpack`: no more bytes than there are, however long the properties claim to be. */
  function UnpackProperties(c: Checks, s: seq<Byte>): Option<Read<Properties>> {
    match EncodeRemainLength(s, 0, 0)
    case None => None
    case Some(h) =>
      var n := if h.length < |h.rest| then h.length else |h.rest|;
      match ReadProperties(c, NoProperties, h.rest[..n])
      case None => None
      case Some(p) => Some(Read(p, h.rest[n..]))
  }

  /** `Publish.Unpack` on the bytes that the header announces. */
  function UnpackBody(c: Checks, version5: bool, dup: bool, qos: QoS, retain: bool, s: seq<Byte>): Option<Publish> {
    var topic := ReadText(c, s);
    if topic.None? || !c.topicName(topic.value.value) then None
    else
      var id := if qos > 0 then ReadUint16(topic.value.rest) else Some(Read(0, topic.value.rest));
      if id.None? then None
      else if !version5 then Some(Publish(dup, qos, retain, topic.value.value, id.value.value, None, id.value.rest))
      else
        match UnpackProperties(c, id.value.rest)
        case None => None
        case Some(p) =>
          Some(Publish(dup, qos, retain, topic.value.value, id.value.value, Some(p.value), p.rest))
  }

  /** `ReadPacket` for a PUBLISH; other packet types are not part of this model. */
  function ReadPublish(c: Checks, version5: bool, s: seq<Byte>): Option<Read<Publish>> {
    if s == [] || s[0] / 16 != 3 then None
    else
      match EncodeRemainLength(s[1..], 0, 0)
      case None => None
      case Some(h) =>
        var dup, qos, retain := s[0] / 8 % 2 == 1, s[0] / 2 % 4, s[0] % 2 == 1;
        if (qos == 0 && dup) || qos > 2 || |h.rest| < h.length then None
        else
          match UnpackBody(c, version5, dup, qos, retain, h.rest[..h.length])
          case None => None
          case Some(p) => Some(Read(p, h.rest[h.length..]))
  }

  // ---- reading back ----

  predicate Short(s: Option<seq<Byte>>) {
    s.Some? ==> |s.value| < 0x1_0000
  }

  /** What the types of the source and the readers of its fields guarantee. */
  predicate PropertiesFit(p: Properties) {
    && Short(p.contentType) && Short(p.responseTopic) && Short(p.correlationData)
    && (p.messageExpiry.Some? ==> p.messageExpiry.value < 0x1_0000_0000)
    && (p.topicAlias.Some? ==> p.topicAlias.value < 0x1_0000)
    && UserFits(p.user)
  }

  predicate Fits(p: Publish) {
    && |p.topic| < 0x1_0000 && p.packetID < 0x1_0000
    && (p.properties.Some? ==> PropertiesFit(p.properties.value))
  }

  predicate PropertiesAccepted(c: Checks, p: Properties) {
    && (p.payloadFormat.Some? ==> p.payloadFormat.value <= 1)
    && (p.contentType.Some? ==> c.utf8(p.contentType.value))
    && (p.responseTopic.Some? ==> c.utf8(p.responseTopic.value) && c.topicName(p.responseTopic.value))
    && p.subIds == [] && p.topicAlias != Some(0)
    && UserAccepted(c, p.user)
  }

  /** What a server takes. */
  predicate Accepted(c: Checks, p: Publish) {
    && (p.dup ==> p.qos > 0) && c.utf8(p.topic) && c.topicName(p.topic)
    && (p.properties.Some? ==> PropertiesAccepted(c, p.properties.value))
  }

  lemma Uint16RoundTrip(n: nat, t: seq<Byte>)
    requires n < 0x1_0000
    ensures ReadUint16(Uint16(n) + t) == Some(Read(n, t))
  {
    assert (Uint16(n) + t)[2..] == t;
  }

  lemma Uint32RoundTrip(n: nat, t: seq<Byte>)
    requires n < 0x1_0000_0000
    ensures ReadUint32(Uint32(n) + t) == Some(Read(n, t))
  {
    assert n / 0x100_0000 % 256 == n / 0x100_0000 && n / 0x1_0000 / 256 == n / 0x100_0000;
    assert n / 0x100 / 256 == n / 0x1_0000;
    assert (Uint32(n) + t)[4..] == t;
  }

  lemma BinaryRoundTrip(b: seq<Byte>, t: seq<Byte>)
    requires |b| < 0x1_0000
    ensures ReadBinary(Binary(b) + t) == Some(Read(b, t))
  {
    assert Binary(b) + t == Uint16(|b|) + (b + t);
    Uint16RoundTrip(|b|, b + t);
    assert (b + t)[..|b|] == b && (b + t)[|b|..] == t;
  }

  lemma TextRoundTrip(c: Checks, b: seq<Byte>, t: seq<Byte>)
    requires |b| < 0x1_0000
    ensures ReadText(c, Binary(b) + t) == if c.utf8(b) then Some(Read(b, t)) else None
  {
    BinaryRoundTrip(b, t);
    hide ReadBinary, Binary;
  }

  /** The properties read after one that is `good`, or none. */
  function Continued(c: Checks, good: bool, p: Properties, t: seq<Byte>): Option<Properties> {
    if good then ReadProperties(c, p, t) else None
  }

  /** One property in front. */
  lemma ReadOne(c: Checks, p: Properties, s: seq<Byte>, good: bool, p': Properties, t: seq<Byte>)
    requires s != [] && ReadProperty(c, p, s) == if good then Some(Read(p', t)) else None
    ensures ReadProperties(c, p, s) == Continued(c, good, p', t)
  {
    hide ReadProperty;
  }

  lemma ReadsFormat(c: Checks, p: Properties, v: Option<Byte>, t: seq<Byte>)
    requires p.payloadFormat.None?
    ensures ReadProperties(c, p, OptByte(PAYLOAD_FORMAT, v) + t) ==
            Continued(c, v.Some? ==> v.value <= 1, p.(payloadFormat := v), t)
  {
    if v.Some? {
      var s := [PAYLOAD_FORMAT, v.value] + t;
      assert s[0] == 0x01 && s[1..] == [v.value] + t && s[1..][1..] == t;
      ReadOne(c, p, s, v.value <= 1, p.(payloadFormat := v), t);
    } else {
      assert [] + t == t && p.(payloadFormat := v) == p;
    }
  }

  lemma ReadsExpiry(c: Checks, p: Properties, v: Option<nat>, t: seq<Byte>)
    requires p.messageExpiry.None? && (v.Some? ==> v.value < 0x1_0000_0000)
    ensures ReadProperties(c, p, OptUint32(MESSAGE_EXPIRY, v) + t) ==
            ReadProperties(c, p.(messageExpiry := v), t)
  {
    if v.Some? {
      var s := [MESSAGE_EXPIRY] + Uint32(v.value) + t;
      assert s[0] == 0x02 && s[1..] == Uint32(v.value) + t;
      Uint32RoundTrip(v.value, t);
      hide ReadUint32, Uint32;
      ReadOne(c, p, s, true, p.(messageExpiry := v), t);
    } else {
      assert [] + t == t && p.(messageExpiry := v) == p;
    }
  }

  lemma ReadsContentType(c: Checks, p: Properties, v: Option<seq<Byte>>, t: seq<Byte>)
    requires p.contentType.None? && Short(v)
    ensures ReadProperties(c, p, OptBinary(CONTENT_TYPE, v) + t) ==
            Continued(c, v.Some? ==> c.utf8(v.value), p.(contentType := v), t)
  {
    if v.Some? {
      var s := OptBinary(CONTENT_TYPE, v) + t;
      assert s[0] == 0x03 && s[1..] == Binary(v.value) + t;
      TextRoundTrip(c, v.value, t);
      hide ReadText, Binary;
      ReadOne(c, p, s, c.utf8(v.value), p.(contentType := v), t);
    } else {
      assert [] + t == t && p.(contentType := v) == p;
    }
  }

  lemma ReadsResponseTopic(c: Checks, p: Properties, v: Option<seq<Byte>>, t: seq<Byte>)
    requires p.responseTopic.None? && Short(v)
    ensures ReadProperties(c, p, OptBinary(RESPONSE_TOPIC, v) + t) ==
            Continued(c, v.Some? ==> c.utf8(v.value) && c.topicName(v.value), p.(responseTopic := v), t)
  {
    if v.Some? {
      var s := OptBinary(RESPONSE_TOPIC, v) + t;
      assert s[0] == 0x08 && s[1..] == Binary(v.value) + t;
      TextRoundTrip(c, v.value, t);
      hide ReadText, Binary;
      ReadOne(c, p, s, c.utf8(v.value) && c.topicName(v.value), p.(responseTopic := v), t);
    } else {
      assert [] + t == t && p.(responseTopic := v) == p;
    }
  }

  lemma ReadsCorrelation(c: Checks, p: Properties, v: Option<seq<Byte>>, t: seq<Byte>)
    requires p.correlationData.None? && Short(v)
    ensures ReadProperties(c, p, OptBinary(CORRELATION_DATA, v) + t) ==
            ReadProperties(c, p.(correlationData := v), t)
  {
    if v.Some? {
      var s := OptBinary(CORRELATION_DATA, v) + t;
      assert s[0] == 0x09 && s[1..] == Binary(v.value) + t;
      BinaryRoundTrip(v.value, t);
      hide ReadBinary, Binary;
      ReadOne(c, p, s, true, p.(correlationData := v), t);
    } else {
      assert [] + t == t && p.(correlationData := v) == p;
    }
  }

  /** A subscription identifier is refused. */
  lemma {:induction false} ReadsSubIds(c: Checks, p: Properties, ids: seq<nat>, t: seq<Byte>)
    ensures ReadProperties(c, p, PackSubIds(ids) + t) == Continued(c, ids == [], p, t)
  {
    if ids != [] {
      FirstIsMark(ids);
      var s := PackSubIds(ids) + t;
      hide PackSubIds;
      ReadOne(c, p, s, false, p, t);
    } else {
      assert [] + t == t;
    }
  }

  lemma {:induction false} FirstIsMark(ids: seq<nat>)
    requires ids != []
    ensures PackSubIds(ids) != [] && PackSubIds(ids)[0] == 0x0B
    decreases |ids|
  {
    if |ids| > 1 { FirstIsMark(ids[..|ids| - 1]); }
    hide DecodeRemainLength;
  }

  lemma ReadsAlias(c: Checks, p: Properties, v: Option<nat>, t: seq<Byte>)
    requires p.topicAlias.None? && (v.Some? ==> v.value < 0x1_0000)
    ensures ReadProperties(c, p, OptUint16(TOPIC_ALIAS, v) + t) ==
            Continued(c, v != Some(0), p.(topicAlias := v), t)
  {
    if v.Some? {
      var s := [TOPIC_ALIAS] + Uint16(v.value) + t;
      assert s[0] == 0x23 && s[1..] == Uint16(v.value) + t;
      Uint16RoundTrip(v.value, t);
      hide ReadUint16, Uint16;
      ReadOne(c, p, s, v != Some(0), p.(topicAlias := v), t);
    } else {
      assert [] + t == t && p.(topicAlias := v) == p;
    }
  }

  predicate UserAccepted(c: Checks, user: seq<UserProperty>) {
    forall u :: u in user ==> c.utf8(u.key) && c.utf8(u.value)
  }

  function UserBytes(u: UserProperty): seq<Byte> {
    [USER] + Binary(u.key) + Binary(u.value)
  }

  lemma ReadsOneUser(c: Checks, p: Properties, u: UserProperty, t: seq<Byte>)
    requires |u.key| < 0x1_0000 && |u.value| < 0x1_0000
    ensures ReadProperties(c, p, UserBytes(u) + t) ==
            Continued(c, c.utf8(u.key) && c.utf8(u.value), p.(user := p.user + [u]), t)
  {
    hide ReadText, Binary, ReadProperties;
    var s := UserBytes(u) + t;
    assert s[0] == 0x26 && s[1..] == Binary(u.key) + (Binary(u.value) + t);
    hide UserBytes;
    TextRoundTrip(c, u.key, Binary(u.value) + t);
    TextRoundTrip(c, u.value, t);
    ReadOne(c, p, s, c.utf8(u.key) && c.utf8(u.value), p.(user := p.user + [u]), t);
  }

  lemma {:induction false} PackUserFront(user: seq<UserProperty>)
    requires user != []
    ensures PackUser(user) == UserBytes(user[0]) + PackUser(user[1..])
    decreases |user|
  {
    var n := |user| - 1;
    if n > 0 {
      PackUserFront(user[..n]);
      assert user[..n][1..] == user[1..][..n - 1] && user[1..][n - 1] == user[n];
      hide Binary;
      var last := UserBytes(user[n]);
      assert PackUser(user) == PackUser(user[..n]) + last;
      assert PackUser(user[1..]) == PackUser(user[1..][..n - 1]) + last;
    } else {
      assert user[..0] == [] && PackUser(user[1..]) == [];
    }
  }

  predicate UserFits(user: seq<UserProperty>) {
    forall u :: u in user ==> |u.key| < 0x1_0000 && |u.value| < 0x1_0000
  }

  lemma UserSplits(c: Checks, user: seq<UserProperty>)
    requires user != []
    ensures var u, more := user[0], user[1..];
            && (UserFits(user) ==> |u.key| < 0x1_0000 && |u.value| < 0x1_0000 && UserFits(more))
            && (UserAccepted(c, user) <==> c.utf8(u.key) && c.utf8(u.value) && UserAccepted(c, more))
  {
    assert user == [user[0]] + user[1..];
  }

  lemma Joined(c: Checks, p: Properties, user: seq<UserProperty>, more: seq<Byte>, t: seq<Byte>)
    requires user != []
    ensures UserBytes(user[0]) + more + t == UserBytes(user[0]) + (more + t)
    ensures p.(user := p.user + [user[0]]).user + user[1..] == p.user + user
  {
    hide ReadProperties;
    assert user == [user[0]] + user[1..];
  }

  lemma {:induction false} ReadsUser(c: Checks, p: Properties, user: seq<UserProperty>, t: seq<Byte>)
    requires UserFits(user)
    ensures ReadProperties(c, p, PackUser(user) + t) ==
            Continued(c, UserAccepted(c, user), p.(user := p.user + user), t)
    decreases |user|
  {
    if user == [] {
      hide ReadProperties;
      assert PackUser([]) + t == t && p.(user := p.user + user) == p;
    } else {
      hide UserBytes, PackUser, ReadProperties, UserFits, UserAccepted;
      UserSplits(c, user);
      PackUserFront(user);
      ReadsOneUser(c, p, user[0], PackUser(user[1..]) + t);
      ReadsUser(c, p.(user := p.user + [user[0]]), user[1..], t);
      Joined(c, p, user, PackUser(user[1..]), t);
    }
  }

  lemma Regroup(a: seq<Byte>, b: seq<Byte>, c: seq<Byte>, d: seq<Byte>, e: seq<Byte>, f: seq<Byte>, g: seq<Byte>,
                h: seq<Byte>)
    ensures a + b + c + d + e + f + g + h == a + (b + (c + (d + (e + (f + (g + (h + [])))))))
  {
  }

  /** The properties read back exactly when a server takes them. */
  lemma PropertiesRoundTrip(c: Checks, p: Properties)
    requires PropertiesFit(p)
    ensures ReadProperties(c, NoProperties, PropertyBytes(p)) == if PropertiesAccepted(c, p) then Some(p) else None
  {
    var p1 := NoProperties.(payloadFormat := p.payloadFormat);
    var p2 := p1.(messageExpiry := p.messageExpiry);
    var p3 := p2.(contentType := p.contentType);
    var p4 := p3.(responseTopic := p.responseTopic);
    var p5 := p4.(correlationData := p.correlationData);
    var p6 := p5.(topicAlias := p.topicAlias);
    assert p6.user + p.user == p.user;
    assert ReadProperties(c, p6.(user := p6.user + p.user), []) == Some(p.(subIds := []));
    hide ReadProperties, OptByte, OptUint16, OptUint32, OptBinary, PackSubIds, PackUser;
    var users := PackUser(p.user) + [];
    var alias := OptUint16(TOPIC_ALIAS, p.topicAlias) + users;
    var ids := PackSubIds(p.subIds) + alias;
    var correlation := OptBinary(CORRELATION_DATA, p.correlationData) + ids;
    var response := OptBinary(RESPONSE_TOPIC, p.responseTopic) + correlation;
    var content := OptBinary(CONTENT_TYPE, p.contentType) + response;
    var expiry := OptUint32(MESSAGE_EXPIRY, p.messageExpiry) + content;
    assert PropertyBytes(p) == OptByte(PAYLOAD_FORMAT, p.payloadFormat) + expiry by {
      Regroup(OptByte(PAYLOAD_FORMAT, p.payloadFormat), OptUint32(MESSAGE_EXPIRY, p.messageExpiry),
              OptBinary(CONTENT_TYPE, p.contentType), OptBinary(RESPONSE_TOPIC, p.responseTopic),
              OptBinary(CORRELATION_DATA, p.correlationData), PackSubIds(p.subIds),
              OptUint16(TOPIC_ALIAS, p.topicAlias), PackUser(p.user));
    }
    hide PropertyBytes;
    ReadsFormat(c, NoProperties, p.payloadFormat, expiry);
    ReadsExpiry(c, p1, p.messageExpiry, content);
    ReadsContentType(c, p2, p.contentType, response);
    ReadsResponseTopic(c, p3, p.responseTopic, correlation);
    ReadsCorrelation(c, p4, p.correlationData, ids);
    ReadsSubIds(c, p5, p.subIds, alias);
    ReadsAlias(c, p5, p.topicAlias, users);
    ReadsUser(c, p6, p.user, []);
  }

  lemma UnpacksProperties(c: Checks, p: Properties, t: seq<Byte>)
    requires PropertiesFit(p) && |PropertyBytes(p)| <= MAX_REMAINING
    ensures UnpackProperties(c, PackProperties(p) + t) == if PropertiesAccepted(c, p) then Some(Read(p, t)) else None
  {
    var b := PropertyBytes(p);
    assert PackProperties(p) + t == VarInt(|b|) + (b + t);
    PropertiesRoundTrip(c, p);
    hide PropertyBytes, PackProperties, PropertiesAccepted, PropertiesFit;
    ReadLength(|b|, b + t);
    assert (b + t)[..|b|] == b && (b + t)[|b|..] == t;
    hide ReadProperties, VarInt, EncodeRemainLength;
  }

  /** What comes back: the packet without the packet identifier of a QoS 0 message, which is not sent. */
  function Sent(p: Publish): Publish {
    if p.qos == 0 then p.(packetID := 0) else p
  }

  predicate BodyAccepted(c: Checks, p: Publish) {
    && c.utf8(p.topic) && c.topicName(p.topic)
    && (p.properties.Some? ==> PropertiesAccepted(c, p.properties.value))
  }

  lemma UnpacksBody(c: Checks, p: Publish)
    requires Fits(p) && |Body(p)| <= MAX_REMAINING
    ensures UnpackBody(c, p.properties.Some?, p.dup, p.qos, p.retain, Body(p)) ==
            if BodyAccepted(c, p) then Some(Sent(p)) else None
  {
    var tail := (if p.properties.Some? then PackProperties(p.properties.value) else []) + p.payload;
    UnpacksStart(c, p, tail);
    if p.properties.Some? {
      assert |PropertyBytes(p.properties.value)| <= |PackProperties(p.properties.value)| <= |Body(p)|;
      UnpacksProperties(c, p.properties.value, p.payload);
    } else {
      assert tail == p.payload;
    }
    hide Body, ReadText, ReadUint16, PropertyBytes, PackProperties, UnpackProperties, PropertiesAccepted, PropertiesFit;
  }

  /** The topic and the packet identifier are read before `tail`. */
  lemma UnpacksStart(c: Checks, p: Publish, tail: seq<Byte>)
    requires |p.topic| < 0x1_0000 && p.packetID < 0x1_0000
    requires tail == (if p.properties.Some? then PackProperties(p.properties.value) else []) + p.payload
    ensures var topic := ReadText(c, Body(p));
            && topic.Some? == c.utf8(p.topic)
            && (topic.Some? ==> topic.value.value == p.topic)
            && (topic.Some? && p.qos == 0 ==> topic.value.rest == tail)
            && (topic.Some? && p.qos > 0 ==> ReadUint16(topic.value.rest) == Some(Read(p.packetID, tail)))
  {
    var id := if p.qos > 0 then Uint16(p.packetID) else [];
    assert Body(p) == Binary(p.topic) + (id + tail);
    TextRoundTrip(c, p.topic, id + tail);
    Uint16RoundTrip(p.packetID, tail);
    assert p.qos == 0 ==> id + tail == tail;
    hide Body, Binary, ReadText, Uint16, ReadUint16;
  }

  /** A PUBLISH packet, whatever follows it, is read back as it was sent exactly when a server takes it: it is not a
      duplicate of QoS 0, its texts are valid, its payload format is 0 or 1, its topic alias is not 0, and it has no
      subscription identifier. Otherwise it is refused. */
  lemma PublishRoundTrip(c: Checks, p: Publish, t: seq<Byte>)
    requires Fits(p) && Pack(p).Some?
    ensures ReadPublish(c, p.properties.Some?, Pack(p).value + t) ==
            if Accepted(c, p) then Some(Read(Sent(p), t)) else None
  {
    var s, b := Pack(p).value + t, Body(p);
    PackSplits(p, t);
    PacketIsFramed(p, t);
    FlagsReadBack(p, s);
    UnpacksBody(c, p);
    hide Body, Pack, EncodeRemainLength, UnpackBody, Fits, FirstByte;
    assert (b + t)[..|b|] == b && (b + t)[|b|..] == t;
  }

  lemma FlagsReadBack(p: Publish, s: seq<Byte>)
    requires Pack(p).Some? && Pack(p).value <= s
    ensures s != [] && s[0] / 16 == 3
    ensures (s[0] / 8 % 2 == 1 <==> p.dup) && s[0] / 2 % 4 == p.qos && (s[0] % 2 == 1 <==> p.retain)
  {
    assert s[0] == FirstByte(p);
    hide Body;
  }

  // ---- messages ----

  /** `MessageFromPublish`. */
  function MessageFromPublish(p: Publish): Message {
    var m := Message(p.dup, p.qos, p.retain, p.topic, p.payload, 0, [], None, 0, false, [], [], []);
    if p.properties.None? then m
    else
      var q := p.properties.value;
      m.(isText := q.payloadFormat == Some(1),
         contentType := if q.contentType.Some? then q.contentType.value else [],
         correlationData := if q.correlationData == Some([]) then None else q.correlationData,
         messageExpiry := if q.messageExpiry.Some? then q.messageExpiry.value else 0,
         responseTopic := if q.responseTopic.Some? then q.responseTopic.value else [],
         user := q.user)
  }

  /** What the types of the source and the readers of its fields guarantee. */
  predicate MessageFits(m: Message) {
    && |m.topic| < 0x1_0000 && m.packetID < 0x1_0000 && |m.contentType| < 0x1_0000 && |m.responseTopic| < 0x1_0000
    && Short(m.correlationData) && m.messageExpiry < 0x1_0000_0000 && UserFits(m.user)
  }

  /** The texts of the message are valid, and a message of QoS 0 is no duplicate. */
  predicate WellFormed(c: Checks, m: Message, version5: bool) {
    && (m.dup ==> m.qos > 0) && c.utf8(m.topic) && c.topicName(m.topic)
    && (version5 ==>
          && (m.contentType != [] ==> c.utf8(m.contentType))
          && (m.responseTopic != [] ==> c.utf8(m.responseTopic) && c.topicName(m.responseTopic))
          && forall u :: u in m.user ==> c.utf8(u.key) && c.utf8(u.value))
  }

  /** The same message without its packet and subscription identifiers, an empty correlation, and what MQTT 3.1.1
      cannot carry. */
  function Arriving(m: Message, version5: bool): Message {
    if version5 then
      m.(packetID := 0, subIds := [],
         correlationData := if m.correlationData == Some([]) then None else m.correlationData)
    else
      Message(m.dup, m.qos, m.retained, m.topic, m.payload, 0, [], None, 0, false, [], [], [])
  }

  /** A message that is sent arrives as the same message exactly when it is well formed and carries no subscription
      identifier, which a server refuses. */
  lemma MessageRoundTrip(c: Checks, m: Message, version5: bool, t: seq<Byte>)
    requires MessageFits(m) && Pack(MessageToPublish(m, version5)).Some?
    ensures var r := ReadPublish(c, version5, Pack(MessageToPublish(m, version5)).value + t);
            && (r.Some? <==> WellFormed(c, m, version5) && (version5 ==> m.subIds == []))
            && (r.Some? ==> r.value.rest == t)
            && (r.Some? ==> MessageFromPublish(r.value.value) == Arriving(m, version5))
  {
    MessageMeans(c, m, version5);
    hide *;
    PublishRoundTrip(c, MessageToPublish(m, version5), t);
  }

  lemma MessageMeans(c: Checks, m: Message, version5: bool)
    ensures var p := MessageToPublish(m, version5);
            && p.properties.Some? == version5 && (MessageFits(m) ==> Fits(p))
            && (Accepted(c, p) <==> WellFormed(c, m, version5) && (version5 ==> m.subIds == []))
            && MessageFromPublish(Sent(p)) == Arriving(m, version5)
  {
    hide UserFits;
  }
}
