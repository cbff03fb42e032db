/** The RESP2 client of webdav/lib/store_redis.go: `writeRESP`, `readRESP` and `readLine`. */
module Resp {
  import Decimal

  type Byte = b: int | 0 <= b < 256

  const LF: Byte := 10
  const CR: Byte := 13
  const CRLF: seq<Byte> := [13, 10]
  const PLUS: Byte := 43
  const MINUS: Byte := 45
  const COLON: Byte := 58
  const DOLLAR: Byte := 36
  const STAR: Byte := 42
  const MAX_INT64 := 0x7FFF_FFFF_FFFF_FFFF

  datatype Option<T> = None | Some(value: T)

  /** What `readRESP` returns; a missing bulk string and a missing array are both `Nil`. */
  datatype Value = Text(text: seq<Byte>) | Number(n: int) | Bulk(bytes: seq<Byte>) | Nil | Array(items: seq<Value>)

  datatype Failure = EndOfInput | BadNumber | BadType | ServerError(message: seq<Byte>)

  /** `rest` is what the reader has left; Go panics when a length makes `make` or a slice fail. */
  datatype Result<T> = Ok(value: T, rest: seq<Byte>) | Err(failure: Failure, rest: seq<Byte>) | Panic

  datatype Line = Line(text: seq<Byte>, rest: seq<Byte>)

  function Shown(n: nat): seq<Byte> {
    var d := Decimal.Digits(n);
    seq(|d|, i requires 0 <= i < |d| => (48 + d[i]) as Byte)
  }

  predicate IsDigit(b: Byte) {
    48 <= b <= 57
  }

  function Magnitude(s: seq<Byte>): Option<int> {
    if s != [] && forall i :: 0 <= i < |s| ==> IsDigit(s[i])
    then Some(Decimal.ValueOf(seq(|s|, i requires 0 <= i < |s| => s[i] - 48)))
    else None
  }

  /** `strconv.ParseInt(s, 10, 64)`. */
  function ParseInt(s: seq<Byte>): Option<int> {
    var negative := s != [] && s[0] == MINUS;
    match Magnitude(if s != [] && (s[0] == PLUS || s[0] == MINUS) then s[1..] else s)
    case None => None
    case Some(m) =>
      var n := if negative then -m else m;
      if -MAX_INT64 - 1 <= n <= MAX_INT64 then Some(n) else None
  }

  function FindLF(s: seq<Byte>): (i: nat)
    ensures i <= |s| && (i < |s| ==> s[i] == LF)
  {
    if s == [] || s[0] == LF then 0 else 1 + FindLF(s[1..])
  }

  function TrimCR(s: seq<Byte>): seq<Byte> {
    if s != [] && s[|s| - 1] == CR then s[..|s| - 1] else s
  }

  function ReadLine(s: seq<Byte>): (l: Option<Line>)
    ensures l.Some? ==> |l.value.rest| < |s|
  {
    var i := FindLF(s);
    if i == |s| then None else Some(Line(TrimCR(s[..i]), s[i + 1..]))
  }

  /** A length or number line. */
  function ReadNumber(s: seq<Byte>): (r: Result<int>)
    ensures r.Ok? ==> |r.rest| < |s|
  {
    match ReadLine(s)
    case None => Err(EndOfInput, [])
    case Some(l) => (match ParseInt(l.text)
                     case None => Err(BadNumber, l.rest)
                     case Some(n) => Ok(n, l.rest))
  }

  /** The body of a bulk string; the two bytes after it are skipped without a look. */
  function ReadBulk(s: seq<Byte>, n: int): (r: Result<Value>)
    ensures r.Ok? ==> |r.rest| <= |s|
  {
    if n == -1 then Ok(Nil, s)
    else if n < -1 || n + 2 > MAX_INT64 then Panic
    else if |s| < n + 2 then Err(EndOfInput, [])
    else Ok(Bulk(s[..n]), s[n + 2..])
  }

  function Parse(s: seq<Byte>): (r: Result<Value>)
    ensures r.Ok? ==> |r.rest| < |s|
    decreases |s|, 0
  {
    if s == [] then Err(EndOfInput, [])
    else
      var body := s[1..];
      if s[0] == PLUS || s[0] == MINUS then
        match ReadLine(body)
        case None => Err(EndOfInput, [])
        case Some(l) => if s[0] == PLUS then Ok(Text(l.text), l.rest) else Err(ServerError(l.text), l.rest)
      else if s[0] == COLON || s[0] == DOLLAR || s[0] == STAR then
        match ReadNumber(body)
        case Err(f, rest) => Err(f, rest)
        case Panic => Panic
        case Ok(n, rest) => ParseBody(s[0], n, rest)
      else Err(BadType, body)
  }

  /** What follows a header line of kind `b` with number `n`. */
  function ParseBody(b: Byte, n: int, rest: seq<Byte>): (r: Result<Value>)
    requires b == COLON || b == DOLLAR || b == STAR
    ensures r.Ok? ==> |r.rest| <= |rest|
    decreases |rest|, 2
  {
    if b == COLON then Ok(Number(n), rest)
    else if b == DOLLAR then ReadBulk(rest, n)
    else if n == -1 then Ok(Nil, rest)
    else if n < -1 then Panic
    else
      match ParseMany(rest, n)
      case Err(f, left) => Err(f, left)
      case Panic => Panic
      case Ok(items, left) => Ok(Array(items), left)
  }

  function ParseMany(s: seq<Byte>, n: nat): (r: Result<seq<Value>>)
    ensures r.Ok? ==> |r.rest| <= |s|
    decreases |s|, 1
  {
    if n == 0 then Ok([], s)
    else
      match Parse(s)
      case Err(f, rest) => Err(f, rest)
      case Panic => Panic
      case Ok(v, rest) =>
        match ParseMany(rest, n - 1)
        case Err(f, left) => Err(f, left)
        case Panic => Panic
        case Ok(vs, left) => Ok([v] + vs, left)
  }

  /** The wire form of a reply, section by section of the RESP2 protocol. */
  function Encode(v: Value): seq<Byte>
    decreases v
  {
    match v
    case Text(t) => [PLUS] + t + CRLF
    case Number(n) => [COLON] + Signed(n) + CRLF
    case Bulk(b) => [DOLLAR] + Shown(|b|) + CRLF + (b + CRLF)
    case Nil => [DOLLAR, MINUS, 49] + CRLF
    case Array(items) => [STAR] + Shown(|items|) + CRLF + EncodeMany(items)
  }

  function EncodeMany(vs: seq<Value>): seq<Byte>
    decreases vs
  {
    if vs == [] then [] else Encode(vs[0]) + EncodeMany(vs[1..])
  }

  function Signed(n: int): seq<Byte> {
    if n < 0 then [MINUS] + Shown(-n) else Shown(n)
  }

  /** The values RESP2 can carry: texts hold no line feed, numbers and lengths fit 64 bits. */
  predicate Sendable(v: Value) {
    match v
    case Text(t) => LF !in t
    case Number(n) => -MAX_INT64 - 1 <= n <= MAX_INT64
    case Bulk(b) => |b| + 2 <= MAX_INT64
    case Nil => true
    case Array(items) => |items| <= MAX_INT64 && forall i :: 0 <= i < |items| ==> Sendable(items[i])
  }

  lemma FindFirstLF(a: seq<Byte>, t: seq<Byte>)
    requires LF !in a
    ensures FindLF(a + [LF] + t) == |a|
  {
    if a == [] {
      assert (a + [LF] + t)[0] == LF;
    } else {
      FindFirstLF(a[1..], t);
      assert (a + [LF] + t)[1..] == a[1..] + [LF] + t;
    }
  }

  lemma LineRoundTrip(a: seq<Byte>, t: seq<Byte>)
    requires LF !in a
    ensures ReadLine(a + CRLF + t) == Some(Line(a, t))
  {
    var s := a + CRLF + t;
    assert s == (a + [CR]) + [LF] + t;
    FindFirstLF(a + [CR], t);
    assert s[..|a| + 1] == a + [CR] && s[|a| + 2..] == t;
  }

  lemma ShownIsPlain(m: nat)
    ensures Shown(m) != [] && Magnitude(Shown(m)) == Some(m)
    ensures forall i :: 0 <= i < |Shown(m)| ==> IsDigit(Shown(m)[i])
  {
    var s := Shown(m);
    Decimal.DigitsRoundTrip(m);
    assert seq(|s|, i requires 0 <= i < |s| => s[i] - 48) == Decimal.Digits(m);
  }

  lemma SignedIsPlain(n: int)
    ensures LF !in Signed(n)
    ensures -MAX_INT64 - 1 <= n <= MAX_INT64 ==> ParseInt(Signed(n)) == Some(n)
  {
    var m: nat := if n < 0 then -n else n;
    ShownIsPlain(m);
    hide Shown, Magnitude;
    var s := Shown(m);
    assert IsDigit(s[0]);
    assert n < 0 ==> Signed(n)[1..] == s;
  }

  lemma NumberRoundTrip(n: int, t: seq<Byte>)
    requires -MAX_INT64 - 1 <= n <= MAX_INT64
    ensures ReadNumber(Signed(n) + CRLF + t) == Ok(n, t)
  {
    SignedIsPlain(n);
    LineRoundTrip(Signed(n), t);
  }

  lemma BulkRoundTrip(b: seq<Byte>, t: seq<Byte>)
    requires |b| + 2 <= MAX_INT64
    ensures ReadBulk(b + CRLF + t, |b|) == Ok(Bulk(b), t)
  {
    var s := b + CRLF + t;
    assert s[..|b|] == b && s[|b| + 2..] == t;
  }

  function Prepend(out: seq<Value>, r: Result<seq<Value>>): Result<seq<Value>> {
    if r.Ok? then Ok(out + r.value, r.rest) else r
  }

  lemma ManyStep(s: seq<Byte>, n: nat)
    ensures n == 0 ==> ParseMany(s, n) == Ok([], s)
    ensures n > 0 ==>
              match Parse(s)
              case Err(f, rest) => ParseMany(s, n) == Err(f, rest)
              case Panic => ParseMany(s, n) == Panic
              case Ok(v, rest) => ParseMany(s, n) == Prepend([v], ParseMany(rest, n - 1))
  {
    hide Parse;
  }

  lemma {:induction false} ParseHeader(b: Byte, n: int, rest: seq<Byte>)
    requires (b == COLON || b == DOLLAR || b == STAR) && -MAX_INT64 - 1 <= n <= MAX_INT64
    ensures Parse([b] + Signed(n) + CRLF + rest) == ParseBody(b, n, rest)
  {
    var s := [b] + Signed(n) + CRLF + rest;
    assert s[1..] == Signed(n) + CRLF + rest;
    NumberRoundTrip(n, rest);
    hide ReadNumber, Signed, ParseMany;
  }

  lemma ParseText(b: Byte, a: seq<Byte>, t: seq<Byte>)
    requires (b == PLUS || b == MINUS) && LF !in a
    ensures Parse([b] + a + CRLF + t) == if b == PLUS then Ok(Text(a), t) else Err(ServerError(a), t)
  {
    var s := [b] + a + CRLF + t;
    assert s[1..] == a + CRLF + t;
    LineRoundTrip(a, t);
    hide ReadLine;
  }

  lemma EncodeManyHead(vs: seq<Value>, t: seq<Byte>)
    requires vs != []
    ensures EncodeMany(vs) + t == Encode(vs[0]) + (EncodeMany(vs[1..]) + t)
  {
    hide Encode;
  }

  /** Reading back any reply gives the value and leaves exactly what follows it. */
  lemma {:induction false} RoundTrip(v: Value, t: seq<Byte>)
    requires Sendable(v)
    ensures Parse(Encode(v) + t) == Ok(v, t)
    decreases v
  {
    var s := Encode(v) + t;
    match v {
      case Text(a) =>
        assert s == [PLUS] + a + CRLF + t;
        ParseText(PLUS, a, t);
        hide Parse;
      case Number(n) =>
        assert s == [COLON] + Signed(n) + CRLF + t;
        ParseHeader(COLON, n, t);
        hide Parse, Signed;
      case Bulk(b) =>
        assert s == [DOLLAR] + Signed(|b|) + CRLF + (b + CRLF + t);
        ParseHeader(DOLLAR, |b|, b + CRLF + t);
        BulkRoundTrip(b, t);
        hide Parse, Signed, ReadBulk;
      case Nil =>
        assert Decimal.Digits(1) == [1] && Signed(-1) == [MINUS, 49];
        assert s == [DOLLAR] + Signed(-1) + CRLF + t;
        ParseHeader(DOLLAR, -1, t);
        hide Parse, Signed;
      case Array(items) =>
        assert s == [STAR] + Signed(|items|) + CRLF + (EncodeMany(items) + t);
        ParseHeader(STAR, |items|, EncodeMany(items) + t);
        RoundTripMany(items, t);
        hide Parse, Signed, ParseMany, EncodeMany;
    }
  }

  lemma {:induction false} RoundTripMany(vs: seq<Value>, t: seq<Byte>)
    requires forall i :: 0 <= i < |vs| ==> Sendable(vs[i])
    ensures ParseMany(EncodeMany(vs) + t, |vs|) == Ok(vs, t)
    decreases vs
  {
    if vs != [] {
      RoundTrip(vs[0], EncodeMany(vs[1..]) + t);
      RoundTripMany(vs[1..], t);
      EncodeManyHead(vs, t);
      assert [vs[0]] + vs[1..] == vs;
      hide Parse, Encode, EncodeMany, Sendable;
    } else {
      assert EncodeMany(vs) + t == t;
    }
  }

  // ---- the bytes on the wire ----

  /** The bytes of an ASCII text. */
  function Ascii(s: string): seq<Byte>
    requires forall i :: 0 <= i < |s| ==> s[i] as int < 128
  {
    seq(|s|, i requires 0 <= i < |s| => s[i] as Byte)
  }

  /** Every kind of reply begins with its own mark, and every line ends with CR LF. */
  lemma WireForm(v: Value)
    ensures v.Text? ==> Encode(v) == Ascii("+") + v.text + Ascii("\r\n")
    ensures v.Number? ==>
              Encode(v) == Ascii(":") + (if v.n < 0 then Ascii("-") + Shown(-v.n) else Shown(v.n)) + Ascii("\r\n")
    ensures v.Bulk? ==> Encode(v) == Ascii("$") + Shown(|v.bytes|) + Ascii("\r\n") + (v.bytes + Ascii("\r\n"))
    ensures v.Nil? ==> Encode(v) == Ascii("$-1\r\n")
    ensures v.Array? ==> Encode(v) == Ascii("*") + Shown(|v.items|) + Ascii("\r\n") + EncodeMany(v.items)
  {
    assert Ascii("\r\n") == CRLF && Ascii("$-1\r\n") == [DOLLAR, MINUS, 49] + CRLF;
    assert Ascii("+") == [PLUS] && Ascii(":") == [COLON] && Ascii("-") == [MINUS];
    assert Ascii("$") == [DOLLAR] && Ascii("*") == [STAR];
  }

  /** Numbers are written in decimal, the most significant digit first. */
  lemma ShownInPlaces(m: nat, d: nat)
    requires d < 10
    ensures Shown(d) == Ascii(["0123456789"[d]])
    ensures m > 0 ==> Shown(10 * m + d) == Shown(m) + Shown(d)
  {
    assert (10 * m + d) / 10 == m && (10 * m + d) % 10 == d;
    assert Decimal.Digits(d) == [d];
  }

  /** A line ending is a line feed, with at most one carriage return before it. */
  predicate LineEnd(a: seq<Byte>, end: seq<Byte>) {
    LF !in a && (end == Ascii("\r\n") || (end == Ascii("\n") && (a == [] || a[|a| - 1] != CR)))
  }

  lemma LineByEnd(a: seq<Byte>, end: seq<Byte>, t: seq<Byte>)
    requires LineEnd(a, end)
    ensures ReadLine(a + end + t) == Some(Line(a, t))
  {
    if end == Ascii("\r\n") {
      assert end == CRLF;
      LineRoundTrip(a, t);
    } else {
      assert end == [LF];
      FindFirstLF(a, t);
      var s := a + [LF] + t;
      assert s[..|a|] == a && s[|a| + 1..] == t;
    }
  }

  /** What one header line, of whatever kind and content, makes of the bytes after it. */
  lemma {:induction false} ReplyByHeader(b: Byte, a: seq<Byte>, end: seq<Byte>, t: seq<Byte>)
    requires LineEnd(a, end)
    ensures var r, n := Parse([b] + a + end + t), ParseInt(a);
            if [b] == Ascii("+") then r == Ok(Text(a), t)
            else if [b] == Ascii("-") then r == Err(ServerError(a), t)
            else if [b] !in {Ascii(":"), Ascii("$"), Ascii("*")} then r == Err(BadType, a + end + t)
            else if n.None? then r == Err(BadNumber, t)
            else if [b] == Ascii(":") then r == Ok(Number(n.value), t)
            else if n.value == -1 then r == Ok(Nil, t)
            else if n.value < -1 then r == Panic
            else if [b] == Ascii("$") then
              r == if n.value + 2 > 0x7FFF_FFFF_FFFF_FFFF then Panic
                   else if |t| < n.value + 2 then Err(EndOfInput, [])
                   else Ok(Bulk(t[..n.value]), t[n.value + 2..])
            else
              match ParseMany(t, n.value)
              case Ok(items, rest) => r == Ok(Array(items), rest)
              case Err(f, rest) => r == Err(f, rest)
              case Panic => r == Panic
  {
    var s := [b] + a + end + t;
    assert s[1..] == a + end + t && s[0] == b;
    LineByEnd(a, end, t);
    assert Ascii("+") == [PLUS] && Ascii("-") == [MINUS] && Ascii(":") == [COLON];
    assert Ascii("$") == [DOLLAR] && Ascii("*") == [STAR];
    hide ReadLine, ParseInt, ParseMany, Ascii;
  }

  /** A reply needs a whole first line, unless its first byte is refused. */
  lemma {:induction false} NoLine(s: seq<Byte>)
    requires s == [] || (LF !in s[1..] && [s[0]] in {Ascii("+"), Ascii("-"), Ascii(":"), Ascii("$"), Ascii("*")})
    ensures Parse(s) == Err(EndOfInput, [])
  {
    assert Ascii("+") == [PLUS] && Ascii("-") == [MINUS] && Ascii(":") == [COLON];
    assert Ascii("$") == [DOLLAR] && Ascii("*") == [STAR];
    hide Ascii;
    if s != [] { NoLF(s[1..]); }
  }

  lemma {:induction false} NoLF(s: seq<Byte>)
    requires LF !in s
    ensures FindLF(s) == |s|
  {
    if s != [] { NoLF(s[1..]); }
  }

  /** The numbers that are accepted: a sign or none, then digits, within 64 bits. */
  lemma ParseIntMeans(s: seq<Byte>)
    ensures var signed := s != [] && [s[0]] in {Ascii("+"), Ascii("-")};
            var digits := if signed then s[1..] else s;
            var m := Magnitude(digits);
            && (m.Some? <==> digits != [] && forall b :: b in digits ==> '0' as int <= b <= '9' as int)
            && (m.Some? ==> var n := if signed && [s[0]] == Ascii("-") then -m.value else m.value;
                  ParseInt(s) == if -0x8000_0000_0000_0000 <= n < 0x8000_0000_0000_0000 then Some(n) else None)
            && (m.None? ==> ParseInt(s) == None)
  {
    assert Ascii("+") == [PLUS] && Ascii("-") == [MINUS];
  }

  /** `writeRESP` sends its arguments as an array of bulk strings. */
  function Request(args: seq<seq<Byte>>): Value {
    Array(seq(|args|, i requires 0 <= i < |args| => Bulk(args[i])))
  }

  lemma RequestRoundTrip(args: seq<seq<Byte>>, t: seq<Byte>)
    requires |args| <= MAX_INT64 && forall i :: 0 <= i < |args| ==> |args[i]| + 2 <= MAX_INT64
    ensures Parse(Encode(Request(args)) + t) == Ok(Request(args), t)
  {
    RoundTrip(Request(args), t);
  }

  lemma LineStable(s: seq<Byte>, t: seq<Byte>)
    requires ReadLine(s).Some?
    ensures ReadLine(s + t) == Some(Line(ReadLine(s).value.text, ReadLine(s).value.rest + t))
  {
    var i := FindLF(s);
    FindLFStable(s, t);
    assert (s + t)[..i] == s[..i] && (s + t)[i + 1..] == s[i + 1..] + t;
  }

  lemma {:induction false} FindLFStable(s: seq<Byte>, t: seq<Byte>)
    requires FindLF(s) < |s|
    ensures FindLF(s + t) == FindLF(s)
  {
    if s[0] != LF {
      FindLFStable(s[1..], t);
      assert (s + t)[1..] == s[1..] + t;
    }
  }

  lemma NumberStable(s: seq<Byte>, t: seq<Byte>)
    requires ReadNumber(s).Ok?
    ensures ReadNumber(s + t) == Ok(ReadNumber(s).value, ReadNumber(s).rest + t)
  {
    LineStable(s, t);
    hide ReadLine, ParseInt;
  }

  lemma BulkStable(s: seq<Byte>, n: int, t: seq<Byte>)
    requires ReadBulk(s, n).Ok?
    ensures ReadBulk(s + t, n) == Ok(ReadBulk(s, n).value, ReadBulk(s, n).rest + t)
  {
    if n != -1 {
      assert (s + t)[..n] == s[..n] && (s + t)[n + 2..] == s[n + 2..] + t;
    }
  }

  /** A reply that can be read does not depend on the bytes that follow it. */
  lemma {:induction false} Stable(s: seq<Byte>, t: seq<Byte>)
    requires Parse(s).Ok?
    ensures Parse(s + t) == Ok(Parse(s).value, Parse(s).rest + t)
    decreases |s|, 0
  {
    var body := s[1..];
    assert (s + t)[1..] == body + t && (s + t)[0] == s[0];
    if s[0] == PLUS {
      LineStable(body, t);
      hide ReadLine, ReadNumber, ReadBulk, ParseMany;
    } else {
      NumberStable(body, t);
      var n, rest := ReadNumber(body).value, ReadNumber(body).rest;
      hide ReadLine, ReadNumber, ReadBulk, ParseMany;
      if s[0] == DOLLAR {
        BulkStable(rest, n, t);
      } else if s[0] == STAR && n != -1 {
        StableMany(rest, n, t);
      }
    }
  }

  lemma {:induction false} StableMany(s: seq<Byte>, n: nat, t: seq<Byte>)
    requires ParseMany(s, n).Ok?
    ensures ParseMany(s + t, n) == Ok(ParseMany(s, n).value, ParseMany(s, n).rest + t)
    decreases |s|, 1
  {
    ManyStep(s, n);
    ManyStep(s + t, n);
    hide Parse, ParseMany;
    if n > 0 {
      Stable(s, t);
      StableMany(Parse(s).rest, n - 1, t);
    }
  }

  /** No proper beginning of a reply can be read as a reply: the wire form marks its own end. */
  lemma NoPartialReply(v: Value, k: nat)
    requires Sendable(v) && k < |Encode(v)|
    ensures !Parse(Encode(v)[..k]).Ok?
  {
    var s := Encode(v);
    RoundTrip(v, []);
    assert s + [] == s && s[..k] + s[k..] == s;
    if Parse(s[..k]).Ok? {
      Stable(s[..k], s[k..]);
      hide *;
      assert false;
    }
  }

  predicate AllSendable(vs: seq<Value>) {
    forall i :: 0 <= i < |vs| ==> Sendable(vs[i])
  }

  /** An error reply inside an array ends the reading at once: the items after it stay unread. */
  lemma {:induction false} ErrorInsideArray(before: seq<Value>, message: seq<Byte>, after: nat, t: seq<Byte>)
    requires |before| + 1 + after <= MAX_INT64 && LF !in message && AllSendable(before)
    ensures Parse([STAR] + Signed(|before| + 1 + after) + CRLF +
                  (EncodeMany(before) + ([MINUS] + message + CRLF + t))) ==
            Err(ServerError(message), t)
  {
    hide *;
    var rest := [MINUS] + message + CRLF + t;
    ParseHeader(STAR, |before| + 1 + after, EncodeMany(before) + rest);
    ParseError(message, t);
    ErrorAfter(before, after + 1, rest, ServerError(message), t);
    FailedBody(|before| + 1 + after, EncodeMany(before) + rest, ServerError(message), t);
  }

  lemma ParseError(message: seq<Byte>, t: seq<Byte>)
    requires LF !in message
    ensures Parse([MINUS] + message + CRLF + t) == Err(ServerError(message), t)
  {
    ParseText(MINUS, message, t);
    hide Parse;
  }

  lemma FailedBody(n: nat, s: seq<Byte>, f: Failure, t: seq<Byte>)
    requires ParseMany(s, n) == Err(f, t)
    ensures ParseBody(STAR, n, s) == Err(f, t)
  {
    hide ParseMany;
  }

  lemma {:induction false} ErrorAfter(before: seq<Value>, n: nat, rest: seq<Byte>, f: Failure, t: seq<Byte>)
    requires n > 0 && Parse(rest) == Err(f, t) && AllSendable(before)
    ensures ParseMany(EncodeMany(before) + rest, |before| + n) == Err(f, t)
    decreases |before|
  {
    hide *;
    if before == [] {
      EncodeNone(rest);
      ManyStep(rest, n);
    } else {
      AllSendableTail(before);
      ErrorAfter(before[1..], n, rest, f, t);
      ErrorAfterStep(before, n, rest, f, t);
    }
  }

  lemma EncodeNone(t: seq<Byte>)
    ensures EncodeMany([]) + t == t
  {
  }

  lemma AllSendableTail(vs: seq<Value>)
    requires vs != [] && AllSendable(vs)
    ensures Sendable(vs[0]) && AllSendable(vs[1..])
  {
    hide Sendable;
  }

  lemma ErrorAfterStep(before: seq<Value>, n: nat, rest: seq<Byte>, f: Failure, t: seq<Byte>)
    requires before != [] && Sendable(before[0])
    requires ParseMany(EncodeMany(before[1..]) + rest, |before| - 1 + n) == Err(f, t)
    ensures ParseMany(EncodeMany(before) + rest, |before| + n) == Err(f, t)
  {
    hide *;
    var m: nat := |before| - 1 + n;
    ErrorAfterOne(before[0], EncodeMany(before[1..]) + rest, m, f, t);
    EncodeManyHead(before, rest);
    assert m + 1 == |before| + n;
  }

  lemma {:induction false} ErrorAfterOne(v: Value, s: seq<Byte>, n: nat, f: Failure, t: seq<Byte>)
    requires Sendable(v) && ParseMany(s, n) == Err(f, t)
    ensures ParseMany(Encode(v) + s, n + 1) == Err(f, t)
  {
    hide *;
    RoundTrip(v, s);
    ManyStep(Encode(v) + s, n + 1);
    Failing([v], f, t);
  }

  /** The connection's writing side. */
  class Writer {
    var sent: seq<Byte>

    constructor ()
      ensures sent == []
    {
      sent := [];
    }

    method WriteResp(args: seq<seq<Byte>>)
      modifies this
      ensures sent == old(sent) + Encode(Request(args))
    {
      sent := sent + ([STAR] + Shown(|args|) + CRLF);
      ghost var header := sent;
      ghost var items := Request(args).items;
      assert items[..0] == [] && EncodeMany([]) == [];
      hide EncodeMany, Shown;
      for i := 0 to |args|
        invariant sent == header + EncodeMany(items[..i])
      {
        EncodeManyAppend(items[..i], items[i]);
        assert items[..i + 1] == items[..i] + [items[i]];
        sent := sent + ([DOLLAR] + Shown(|args[i]|) + CRLF + (args[i] + CRLF));
      }
      assert items[..|args|] == items;
    }
  }

  lemma {:induction false} EncodeManyAppend(vs: seq<Value>, v: Value)
    ensures EncodeMany(vs + [v]) == EncodeMany(vs) + Encode(v)
    decreases |vs|
  {
    if vs != [] {
      EncodeManyAppend(vs[1..], v);
      assert (vs + [v])[1..] == vs[1..] + [v] && (vs + [v])[0] == vs[0];
    } else {
      assert [v][1..] == [] && ([] + [v])[0] == v && EncodeMany([v][1..]) == [];
    }
  }

  /** The connection's reading side: a cursor over the bytes that arrive. */
  class Reader {
    const input: seq<Byte>
    var pos: nat

    ghost predicate Valid()
      reads this
    {
      pos <= |input|
    }

    ghost function Left(): seq<Byte>
      reads this
      requires Valid()
    {
      input[pos..]
    }

    constructor (input: seq<Byte>)
      ensures Valid() && Left() == input
    {
      this.input, pos := input, 0;
    }

    /** Up to the first line feed, without the line ending. */
    method NextLine() returns (line: Option<seq<Byte>>)
      requires Valid()
      modifies this
      ensures Valid() && old(pos) <= pos
      ensures match ReadLine(old(Left()))
              case None => line == None && Left() == []
              case Some(l) => line == Some(l.text) && Left() == l.rest
    {
      var i := pos;
      ghost var start := Left();
      while i < |input| && input[i] != LF
        invariant pos <= i <= |input| && pos == old(pos)
        invariant FindLF(start) == i - pos + FindLF(input[i..])
      {
        assert input[i..][1..] == input[i + 1..];
        i := i + 1;
      }
      if i == |input| {
        pos := |input|;
        return None;
      }
      var s := input[pos..i];
      assert FindLF(input[i..]) == 0 && start[..i - pos] == s;
      assert start[i - pos + 1..] == input[i + 1..];
      pos := i + 1;
      if s != [] && s[|s| - 1] == CR {
        s := s[..|s| - 1];
      }
      return Some(s);
    }

    method NextNumber() returns (n: Result<int>)
      requires Valid()
      modifies this
      ensures Valid() && n == ReadNumber(old(Left())) && old(pos) <= pos
      ensures !n.Panic? ==> Left() == n.rest
    {
      var line := NextLine();
      if line.None? {
        return Err(EndOfInput, []);
      }
      var v := ParseInt(line.value);
      if v.None? {
        return Err(BadNumber, input[pos..]);
      }
      return Ok(v.value, input[pos..]);
    }

    method NextBulk(n: int) returns (r: Result<Value>)
      requires Valid()
      modifies this
      ensures Valid() && r == ReadBulk(old(Left()), n) && (!r.Panic? ==> Left() == r.rest) && old(pos) <= pos
    {
      if n == -1 {
        return Ok(Nil, input[pos..]);
      }
      if n < -1 || n + 2 > MAX_INT64 {
        return Panic;
      }
      if |input| - pos < n + 2 {
        pos := |input|;
        return Err(EndOfInput, []);
      }
      var buf := input[pos..pos + n + 2];
      assert input[pos..][..n] == buf[..n] && input[pos..][n + 2..] == input[pos + n + 2..];
      pos := pos + n + 2;
      return Ok(Bulk(buf[..n]), input[pos..]);
    }

    method ReadResp() returns (r: Result<Value>)
      requires Valid()
      modifies this
      ensures Valid() && r == Parse(old(Left())) && (!r.Panic? ==> Left() == r.rest)
      ensures old(pos) <= pos && (r.Ok? ==> old(pos) < pos)
      decreases |input| - pos, 0
    {
      if pos == |input| {
        return Err(EndOfInput, []);
      }
      var b := input[pos];
      assert Left()[1..] == input[pos + 1..];
      pos := pos + 1;
      if b == PLUS || b == MINUS {
        var line := NextLine();
        if line.None? {
          return Err(EndOfInput, []);
        }
        return if b == PLUS then Ok(Text(line.value), input[pos..]) else Err(ServerError(line.value), input[pos..]);
      }
      if b != COLON && b != DOLLAR && b != STAR {
        return Err(BadType, input[pos..]);
      }
      var n := NextNumber();
      match n {
        case Err(f, rest) => return Err(f, rest);
        case Panic => return Panic;
        case Ok(count, rest) =>
          if b == COLON {
            return Ok(Number(count), rest);
          }
          if b == DOLLAR {
            r := NextBulk(count);
            return;
          }
          if count == -1 {
            return Ok(Nil, rest);
          }
          if count < -1 {
            return Panic;
          }
          var items := NextItems(count);
          match items {
            case Err(f, left) => return Err(f, left);
            case Panic => return Panic;
            case Ok(out, left) => return Ok(Array(out), left);
          }
      }
    }

    /** The loop of `readRESP` over the items of an array. */
    method NextItems(n: nat) returns (r: Result<seq<Value>>)
      requires Valid()
      modifies this
      ensures Valid() && r == ParseMany(old(Left()), n) && (!r.Panic? ==> Left() == r.rest) && old(pos) <= pos
      decreases |input| - pos, 1
    {
      var out: seq<Value> := [];
      ghost var start := Left();
      PrependNone(ParseMany(start, n));
      hide Parse, ParseMany, Prepend;
      for i := 0 to n
        invariant Valid() && old(pos) <= pos
        invariant ItemsLeft(start, n, out, Left(), n - i)
      {
        ItemRead(start, n, out, Left(), n - i);
        hide ItemsLeft;
        var v := ReadResp();
        match v {
          case Err(f, rest) => return Err(f, rest);
          case Panic => return Panic;
          case Ok(item, _) => out := out + [item];
        }
      }
      AllItemsRead(start, n, out, Left());
      return Ok(out, input[pos..]);
    }
  }

  /** The loop has `out` and still has to read `m` items from `left`. */
  ghost predicate ItemsLeft(start: seq<Byte>, n: nat, out: seq<Value>, left: seq<Byte>, m: nat) {
    ParseMany(start, n) == Prepend(out, ParseMany(left, m))
  }

  /** One round of the loop: a failed item ends it, any other is appended. */
  lemma ItemRead(start: seq<Byte>, n: nat, out: seq<Value>, left: seq<Byte>, m: nat)
    requires m > 0 && ItemsLeft(start, n, out, left, m)
    ensures match Parse(left)
            case Err(f, rest) => ParseMany(start, n) == Err(f, rest)
            case Panic => ParseMany(start, n) == Panic
            case Ok(v, rest) => ItemsLeft(start, n, out + [v], rest, m - 1)
  {
    ManyStep(left, m);
    hide Parse, ParseMany;
    match Parse(left) {
      case Err(f, rest) => Failing(out, f, rest);
      case Panic => Failing(out, EndOfInput, []);
      case Ok(v, rest) => PrependOne(out, v, ParseMany(rest, m - 1));
    }
  }

  lemma AllItemsRead(start: seq<Byte>, n: nat, out: seq<Value>, left: seq<Byte>)
    requires ItemsLeft(start, n, out, left, 0)
    ensures ParseMany(start, n) == Ok(out, left)
  {
    ManyStep(left, 0);
    Finished(out, left);
    hide ParseMany;
  }

  lemma Failing(out: seq<Value>, f: Failure, rest: seq<Byte>)
    ensures Prepend(out, Err(f, rest)) == Err(f, rest) && Prepend(out, Panic) == Panic
  {
  }

  lemma Finished(out: seq<Value>, rest: seq<Byte>)
    ensures Prepend(out, Ok([], rest)) == Ok(out, rest)
  {
    assert out + [] == out;
  }

  lemma PrependNone(r: Result<seq<Value>>)
    ensures Prepend([], r) == r
  {
    assert r.Ok? ==> [] + r.value == r.value;
  }

  lemma PrependOne(out: seq<Value>, v: Value, r: Result<seq<Value>>)
    ensures Prepend(out, Prepend([v], r)) == Prepend(out + [v], r)
  {
    assert r.Ok? ==> out + ([v] + r.value) == out + [v] + r.value;
  }
}
