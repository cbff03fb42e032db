/** `Message.Copy` of gmqtt/message.go on slices in memory. */
module MessageCopy {
  import opened PublishSize

  /** The key and the value of one user property. */
  datatype UserSlices = UserSlices(key: array<Byte>, value: array<Byte>)

  /** A slice, unless it is absent. */
  ghost function Memory(slice: object?): set<object> {
    if slice == null then {} else {slice}
  }

  ghost function Owned(us: seq<UserSlices>): set<object> {
    (set i | 0 <= i < |us| :: us[i].key as object) + (set i | 0 <= i < |us| :: us[i].value as object)
  }

  ghost function UserContents(us: seq<UserSlices>): (ps: seq<UserProperty>)
    reads Owned(us)
    ensures |ps| == |us|
    ensures forall i :: 0 <= i < |us| ==> ps[i] == UserProperty(us[i].key[..], us[i].value[..])
    decreases |us|
  {
    if us == [] then []
    else
      assert Owned(us[..|us| - 1]) <= Owned(us);
      assert us[|us| - 1].key in Owned(us) && us[|us| - 1].value in Owned(us);
      UserContents(us[..|us| - 1]) + [UserProperty(us[|us| - 1].key[..], us[|us| - 1].value[..])]
  }

  ghost function CorrelationValue(a: array?<Byte>): Option<seq<Byte>>
    reads Memory(a)
  {
    if a == null then None else Some(a[..])
  }

  ghost function IdsValue(a: array?<nat>): seq<nat>
    reads Memory(a)
  {
    if a == null then [] else a[..]
  }

  ghost function UserValue(a: array?<UserSlices>): seq<UserProperty>
    reads Memory(a), if a == null then {} else Owned(a[..])
  {
    if a == null then [] else UserContents(a[..])
  }

  /** An empty slice becomes an absent one. */
  function Absent(data: Option<seq<Byte>>): Option<seq<Byte>> {
    if data == Some([]) then None else data
  }

  /** What `Copy` returns. */
  function Copied(m: Message): Message {
    m.(correlationData := Absent(m.correlationData))
  }

  class StoredMessage {
    /** The fields that are no slices; those of `plain` that are stay empty. */
    const plain: Message
    const payload: array<Byte>
    const correlationData: array?<Byte>
    const subIds: array?<nat>
    const user: array?<UserSlices>

    constructor (plain: Message, payload: array<Byte>, correlationData: array?<Byte>, subIds: array?<nat>,
                 user: array?<UserSlices>)
      ensures this.plain == plain && this.payload == payload && this.correlationData == correlationData
      ensures this.subIds == subIds && this.user == user
    {
      this.plain, this.payload, this.correlationData := plain, payload, correlationData;
      this.subIds, this.user := subIds, user;
    }

    /** Everything the message keeps its contents in. */
    ghost function Slices(): set<object>
      reads Memory(user)
    {
      Memory(payload) + Memory(correlationData) + Memory(subIds) + Memory(user) +
      if user == null then {} else Owned(user[..])
    }

    ghost function Value(): Message
      reads Memory(user), Slices()
    {
      plain.(payload := payload[..],
             correlationData := CorrelationValue(correlationData), subIds := IdsValue(subIds),
             user := UserValue(user))
    }

    /** The copy shares no memory with the original, has its contents and is always measured exactly: it never has a
        correlation property that is present and empty. */
    method Copy() returns (c: StoredMessage)
      ensures fresh(c) && fresh(c.Slices())
      ensures c.Value() == Copied(Value()) && !EmptyCorrelation(c.Value(), true)
      ensures c.Value() == Value().(correlationData := c.Value().correlationData)
      ensures Value().correlationData != Some([]) ==> c.Value() == Value()
    {
      c := CopySlices();
      SameContents(c);
    }

    method CopySlices() returns (c: StoredMessage)
      ensures fresh(c) && fresh(c.Slices()) && c.plain == plain && c.payload[..] == payload[..]
      ensures CorrelationValue(c.correlationData) == Absent(CorrelationValue(correlationData))
      ensures IdsValue(c.subIds) == IdsValue(subIds) && UserValue(c.user) == UserValue(user)
    {
      hide UserContents, Absent;
      var newPayload := CopyBytes(payload);
      var newCorrelation := CopyCorrelation(correlationData);
      var newSubIds := CopyIds(subIds);
      var newUser := CopyUser(user);
      c := new StoredMessage(plain, newPayload, newCorrelation, newSubIds, newUser);
    }

    lemma SameContents(c: StoredMessage)
      requires c.plain == plain && c.payload[..] == payload[..]
      requires CorrelationValue(c.correlationData) == Absent(CorrelationValue(correlationData))
      requires IdsValue(c.subIds) == IdsValue(subIds) && UserValue(c.user) == UserValue(user)
      ensures c.Value() == Copied(Value()) && !EmptyCorrelation(c.Value(), true)
    {
    }
  }

  method CopyBytes(a: array<Byte>) returns (b: array<Byte>)
    ensures fresh(b) && b[..] == a[..]
  {
    b := new Byte[a.Length];
    for i := 0 to a.Length
      invariant b[..i] == a[..i]
    {
      b[i] := a[i];
    }
  }

  method CopyCorrelation(a: array?<Byte>) returns (b: array?<Byte>)
    ensures fresh(Memory(b)) && CorrelationValue(b) == Absent(CorrelationValue(a))
  {
    b := null;
    if a != null && a.Length != 0 {
      b := CopyBytes(a);
    }
    assert a != null ==> (a.Length == 0 <==> a[..] == []);
  }

  method CopyIds(a: array?<nat>) returns (b: array?<nat>)
    ensures fresh(Memory(b)) && IdsValue(b) == IdsValue(a)
  {
    b := null;
    if a != null && a.Length != 0 {
      b := new nat[a.Length];
      for i := 0 to a.Length
        invariant b != null && b.Length == a.Length && b[..i] == a[..i]
      {
        b[i] := a[i];
      }
    }
  }

  /** The loop over the user properties: new slices for every key and value. */
  method CopyUser(a: array?<UserSlices>) returns (b: array?<UserSlices>)
    ensures fresh(Memory(b)) && (b != null ==> fresh(Owned(b[..]))) && UserValue(b) == UserValue(a)
  {
    if a == null || a.Length == 0 {
      return null;
    }
    var none := new Byte[0];
    b := new UserSlices[a.Length](_ => UserSlices(none, none));
    for k := 0 to a.Length
      invariant b != null && fresh(b) && b.Length == a.Length
      invariant forall i :: 0 <= i < a.Length ==> fresh(b[i].key) && fresh(b[i].value)
      invariant forall i :: 0 <= i < k ==> b[i].key[..] == a[i].key[..] && b[i].value[..] == a[i].value[..]
    {
      var key := CopyBytes(a[k].key);
      var value := CopyBytes(a[k].value);
      b[k] := UserSlices(key, value);
    }
  }
}
