/** The RESP2 grammar as the parser and the writer implement it (sections "Simple strings",
    "Simple errors", "Integers", "Bulk strings" and "Arrays" of the Redis serialization
    protocol specification), and the laws that tie the two together. */
module Resp {
  import opened Bytes

  const MAX_BULK_BYTES: nat := 512 * 1024 * 1024
  const MAX_ARRAY_ELEMENTS: nat := 0x10_0000
  const MAX_LINE_BYTES: nat := 64 * 1024

  const CR: byte := 13
  const LF: byte := 10
  const CRLF: bytes := [CR, LF]

  const SIMPLE: byte := 43 // '+'
  const ERROR: byte := 45 // '-'
  const INTEGER: byte := 58 // ':'
  const BULK: byte := 36 // '$'
  const ARRAY: byte := 42 // '*'

  /** A decoded value. `Unknown` is a value whose type byte is none of the five, which the
      writer refuses and the parser never returns. */
  datatype Value =
    | Simple(str: bytes)
    | Error(str: bytes)
    | Integer(n: int64)
    | Bulk(str: bytes)
    | NullBulk
    | Array(elems: seq<Value>)
    | NullArray
    | Unknown(typ: byte)

  /** `Eof` is a stream that ended too early; `Malformed` is every protocol error. */
  datatype Failure = Eof | Malformed

  datatype Parsed<+T> = Ok(value: T, rest: bytes) | Fail(error: Failure)

  // ----- the writer ---------------------------------------------------------------------

  predicate Encodable(v: Value)
  {
    match v
    case Unknown(_) => false
    case Array(es) => forall i :: 0 <= i < |es| ==> Encodable(es[i])
    case _ => true
  }

  predicate AllEncodable(es: seq<Value>) { forall i :: 0 <= i < |es| ==> Encodable(es[i]) }

  function Encode(v: Value): bytes
    requires Encodable(v)
    decreases v, 0
  {
    match v
    case Simple(s) => [SIMPLE] + s + CRLF
    case Error(s) => [ERROR] + s + CRLF
    case Integer(n) => [INTEGER] + FormatInt(n) + CRLF
    case Bulk(s) => [BULK] + FormatInt(|s|) + CRLF + s + CRLF
    case NullBulk => [BULK] + FormatInt(-1) + CRLF
    case Array(es) => [ARRAY] + FormatInt(|es|) + CRLF + EncodeAll(es)
    case NullArray => [ARRAY] + FormatInt(-1) + CRLF
  }

  function EncodeAll(es: seq<Value>): bytes
    requires AllEncodable(es)
    decreases es, 1
  {
    if es == [] then [] else Encode(es[0]) + EncodeAll(es[1..])
  }

  // ----- the parser ---------------------------------------------------------------------

  /** The rest of a line of which `n` bytes have been read already. */
  function ReadLine(s: bytes, n: nat): (r: Parsed<bytes>)
    ensures r.Ok? ==> |r.rest| < |s|
    decreases |s|
  {
    if n > MAX_LINE_BYTES then Fail(Malformed)
    else if s == [] then Fail(Eof)
    else if s[0] == CR then
      if |s| == 1 then Fail(Eof)
      else if s[1] != LF then Fail(Malformed)
      else Ok([], s[2..])
    else
      match ReadLine(s[1..], n + 1)
      case Ok(line, rest) => Ok([s[0]] + line, rest)
      case Fail(e) => Fail(e)
  }

  /** A line holding one integer, blanks around it allowed. */
  function ReadNumber(s: bytes): (r: Parsed<int64>)
    ensures r.Ok? ==> |r.rest| < |s|
  {
    match ReadLine(s, 0)
    case Fail(e) => Fail(e)
    case Ok(line, rest) =>
      match ParseInt(Trim(line, IsBlank))
      case None => Fail(Malformed)
      case Some(n) => Ok(n, rest)
  }

  /** Exactly `n` body bytes and the line break that closes them. */
  function ReadBody(s: bytes, n: nat): (r: Parsed<bytes>)
    ensures r.Ok? ==> |r.rest| < |s|
  {
    if |s| < n + 2 then Fail(Eof)
    else if s[n] != CR || s[n + 1] != LF then Fail(Malformed)
    else Ok(s[..n], s[n + 2..])
  }

  function ParseValue(s: bytes): (r: Parsed<Value>)
    ensures r.Ok? ==> |r.rest| < |s|
    decreases |s|, 0
  {
    if s == [] then Fail(Eof)
    else if s[0] == SIMPLE then
      match ReadLine(s[1..], 0) { case Ok(l, rest) => Ok(Simple(l), rest) case Fail(e) => Fail(e) }
    else if s[0] == ERROR then
      match ReadLine(s[1..], 0) { case Ok(l, rest) => Ok(Error(l), rest) case Fail(e) => Fail(e) }
    else if s[0] == INTEGER then
      match ReadNumber(s[1..]) { case Ok(n, rest) => Ok(Integer(n), rest) case Fail(e) => Fail(e) }
    else if s[0] == BULK then
      match ReadNumber(s[1..])
      case Fail(e) => Fail(e)
      case Ok(n, rest) =>
        if n < -1 || n > MAX_BULK_BYTES then Fail(Malformed)
        else if n == -1 then Ok(NullBulk, rest)
        else match ReadBody(rest, n) { case Ok(b, after) => Ok(Bulk(b), after) case Fail(e) => Fail(e) }
    else if s[0] == ARRAY then
      match ReadNumber(s[1..])
      case Fail(e) => Fail(e)
      case Ok(n, rest) =>
        if n < -1 || n > MAX_ARRAY_ELEMENTS then Fail(Malformed)
        else if n == -1 then Ok(NullArray, rest)
        else match ParseValues(rest, n) { case Ok(es, after) => Ok(Array(es), after) case Fail(e) => Fail(e) }
    else Fail(Malformed)
  }

  /** A value in front of the values read after it. */
  function Cons<T>(v: T, tail: Parsed<seq<T>>): Parsed<seq<T>>
  {
    match tail
    case Ok(vs, after) => Ok([v] + vs, after)
    case Fail(e) => Fail(e)
  }

  /** The next `n` values of an array. */
  function ParseValues(s: bytes, n: nat): (r: Parsed<seq<Value>>)
    ensures r.Ok? ==> |r.rest| <= |s| && |r.value| == n
    decreases |s|, n + 1
  {
    if n == 0 then Ok([], s)
    else
      match ParseValue(s)
      case Fail(e) => Fail(e)
      case Ok(v, rest) => Cons(v, ParseValues(rest, n - 1))
  }

  /** Blank lines between commands. On success the next byte exists and starts a command. */
  function SkipNoise(s: bytes): (r: Parsed<()>)
    ensures r.Ok? ==> r.rest != [] && |r.rest| <= |s|
    decreases |s|
  {
    if s == [] then Fail(Eof)
    else if s[0] == CR then
      if |s| == 1 then Fail(Eof)
      else if s[1] != LF then Fail(Malformed)
      else SkipNoise(s[2..])
    else if s[0] == LF then SkipNoise(s[1..])
    else Ok((), s)
  }

  predicate IsTypeByte(b: byte) { b in {SIMPLE, ERROR, INTEGER, BULK, ARRAY} }

  /** An inline command: one line split at white space. */
  function ParseInline(s: bytes): (r: Parsed<Value>)
  {
    match ReadLine(s, 0)
    case Fail(e) => Fail(e)
    case Ok(line, rest) =>
      var fields := Fields(line);
      if fields == [] then Fail(Malformed)
      else Ok(Array(seq(|fields|, i requires 0 <= i < |fields| => Bulk(fields[i]))), rest)
  }

  /** One call of `Parser.Parse`: one RESP value or one inline command. */
  function Parse(s: bytes): (r: Parsed<Value>)
  {
    match SkipNoise(s)
    case Fail(e) => Fail(e)
    case Ok(_, rest) => if IsTypeByte(rest[0]) then ParseValue(rest) else ParseInline(rest)
  }

  /** `n` successive calls of `Parse`: a pipeline. */
  function ParseMany(s: bytes, n: nat): Parsed<seq<Value>>
    decreases n
  {
    if n == 0 then Ok([], s)
    else
      match Parse(s)
      case Fail(e) => Fail(e)
      case Ok(v, rest) => Cons(v, ParseMany(rest, n - 1))
  }

  // ----- which values survive -----------------------------------------------------------

  predicate LineSafe(s: bytes) { |s| <= MAX_LINE_BYTES && CR !in s }

  /** The values the grammar can carry: within the size limits, no CR in a line. */
  predicate WellFormed(v: Value)
  {
    match v
    case Simple(s) => LineSafe(s)
    case Error(s) => LineSafe(s)
    case Bulk(s) => |s| <= MAX_BULK_BYTES
    case Array(es) => |es| <= MAX_ARRAY_ELEMENTS && forall i :: 0 <= i < |es| ==> WellFormed(es[i])
    case Unknown(_) => false
    case _ => true
  }

  predicate AllWellFormed(es: seq<Value>) { forall i :: 0 <= i < |es| ==> WellFormed(es[i]) }

  lemma WellFormedEncodable(v: Value)
    requires WellFormed(v)
    ensures Encodable(v)
  {
  }

  // ----- lines --------------------------------------------------------------------------

  lemma {:induction false} LineRoundTrip(s: bytes, n: nat, t: bytes)
    requires CR !in s && n + |s| <= MAX_LINE_BYTES
    ensures ReadLine(s + CRLF + t, n) == Ok(s, t)
    decreases |s|
  {
    var all := s + CRLF + t;
    if s == [] {
      assert all[2..] == t;
    } else {
      LineRoundTrip(s[1..], n + 1, t);
      assert all[1..] == s[1..] + CRLF + t;
      assert [s[0]] + s[1..] == s;
    }
  }

  lemma {:induction false} LineSafeResult(s: bytes, n: nat)
    requires ReadLine(s, n).Ok?
    ensures CR !in ReadLine(s, n).value && n + |ReadLine(s, n).value| <= MAX_LINE_BYTES
    decreases |s|
  {
    if s[0] != CR {
      LineSafeResult(s[1..], n + 1);
    }
  }

  /** What a longer input does to the outcome: success and protocol errors are final. */
  predicate Extends<T(==)>(short: Parsed<T>, long: Parsed<T>, t: bytes)
  {
    match short
    case Ok(v, rest) => long == Ok(v, rest + t)
    case Fail(Malformed) => long == Fail(Malformed)
    case Fail(Eof) => true
  }

  lemma {:induction false} LineStable(s: bytes, n: nat, t: bytes)
    ensures Extends(ReadLine(s, n), ReadLine(s + t, n), t)
    decreases |s|
  {
    if n <= MAX_LINE_BYTES && s != [] {
      assert (s + t)[0] == s[0];
      if s[0] != CR {
        LineStable(s[1..], n + 1, t);
        assert (s + t)[1..] == s[1..] + t;
      } else if |s| > 1 {
        assert (s + t)[2..] == s[2..] + t;
      }
    }
  }

  lemma NumberStable(s: bytes, t: bytes)
    ensures Extends(ReadNumber(s), ReadNumber(s + t), t)
  {
    LineStable(s, 0, t);
  }

  lemma BodyStable(s: bytes, n: nat, t: bytes)
    ensures Extends(ReadBody(s, n), ReadBody(s + t, n), t)
  {
    if |s| >= n + 2 {
      assert (s + t)[..n] == s[..n];
      assert (s + t)[n + 2..] == s[n + 2..] + t;
    }
  }

  lemma FormatIntUntrimmed(n: int)
    ensures Trim(FormatInt(n), IsBlank) == FormatInt(n) && CR !in FormatInt(n)
  {
    var f := FormatInt(n);
    FormatIntBytes(n);
    assert f[0] in f && f[|f| - 1] in f;
  }

  lemma NumberRoundTrip(n: int64, t: bytes)
    ensures ReadNumber(FormatInt(n) + CRLF + t) == Ok(n, t)
  {
    FormatIntUntrimmed(n);
    assert ParseInt(FormatInt(n)) == Some(n) by { ParseFormat(n); }
    assert ReadLine(FormatInt(n) + CRLF + t, 0) == Ok(FormatInt(n), t) by {
      FormatIntLength(n);
      LineRoundTrip(FormatInt(n), 0, t);
    }
  }

  // ----- stability ----------------------------------------------------------------------

  /** A finished parse is not changed by bytes that arrive later. */
  lemma {:induction false} ValueStable(s: bytes, t: bytes)
    ensures Extends(ParseValue(s), ParseValue(s + t), t)
    decreases |s|, 0
  {
    if s != [] {
      assert (s + t)[0] == s[0];
      assert (s + t)[1..] == s[1..] + t;
      if s[0] == SIMPLE || s[0] == ERROR {
        LineStable(s[1..], 0, t);
      } else if s[0] == INTEGER {
        NumberStable(s[1..], t);
      } else if s[0] == BULK {
        NumberStable(s[1..], t);
        var r := ReadNumber(s[1..]);
        if r.Ok? && 0 <= r.value {
          BodyStable(r.rest, r.value, t);
        }
      } else if s[0] == ARRAY {
        NumberStable(s[1..], t);
        var r := ReadNumber(s[1..]);
        if r.Ok? && 0 <= r.value {
          ValuesStable(r.rest, r.value, t);
        }
      }
    }
  }

  lemma {:induction false} ValuesStable(s: bytes, n: nat, t: bytes)
    ensures Extends(ParseValues(s, n), ParseValues(s + t, n), t)
    decreases |s|, n + 1
  {
    if n != 0 {
      ValueStable(s, t);
      var r := ParseValue(s);
      if r.Ok? {
        ValuesStable(r.rest, n - 1, t);
      }
    }
  }

  lemma {:induction false} NoiseStable(s: bytes, t: bytes)
    ensures Extends(SkipNoise(s), SkipNoise(s + t), t)
    decreases |s|
  {
    if s != [] {
      assert (s + t)[0] == s[0];
      if s[0] == CR && |s| > 1 && s[1] == LF {
        NoiseStable(s[2..], t);
        assert (s + t)[2..] == s[2..] + t;
      } else if s[0] == LF {
        NoiseStable(s[1..], t);
        assert (s + t)[1..] == s[1..] + t;
      }
    }
  }

  /** Stability of a whole command, inline commands included. */
  lemma ParseStable(s: bytes, t: bytes)
    ensures Extends(Parse(s), Parse(s + t), t)
  {
    NoiseStable(s, t);
    var r := SkipNoise(s);
    if r.Ok? {
      ValueStable(r.rest, t);
      LineStable(r.rest, 0, t);
    }
  }

  // ----- round trip ---------------------------------------------------------------------

  lemma LineValueRoundTrip(typ: byte, str: bytes, t: bytes)
    requires LineSafe(str)
    ensures ReadLine(([typ] + str + CRLF + t)[1..], 0) == Ok(str, t)
  {
    LineRoundTrip(str, 0, t);
    assert ([typ] + str + CRLF + t)[1..] == str + CRLF + t;
  }

  lemma HeaderRoundTrip(typ: byte, n: int64, t: bytes)
    ensures ReadNumber(([typ] + FormatInt(n) + CRLF + t)[1..]) == Ok(n, t)
  {
    NumberRoundTrip(n, t);
    assert ([typ] + FormatInt(n) + CRLF + t)[1..] == FormatInt(n) + CRLF + t;
  }

  lemma ParseBulkStep(s: bytes, n: nat, rest: bytes, body: bytes, after: bytes)
    requires s != [] && s[0] == BULK && n <= MAX_BULK_BYTES
    requires ReadNumber(s[1..]) == Ok(n, rest) && ReadBody(rest, n) == Ok(body, after)
    ensures ParseValue(s) == Ok(Bulk(body), after)
  {
  }

  lemma BulkRoundTrip(str: bytes, t: bytes)
    requires |str| <= MAX_BULK_BYTES
    ensures ParseValue(Encode(Bulk(str)) + t) == Ok(Bulk(str), t)
  {
    var tail := str + CRLF + t;
    var s := [BULK] + FormatInt(|str|) + CRLF + tail;
    assert Encode(Bulk(str)) + t == s;
    assert ReadBody(tail, |str|) == Ok(str, t) by {
      assert tail[..|str|] == str && tail[|str| + 2..] == t;
    }
    HeaderRoundTrip(BULK, |str|, tail);
    ParseBulkStep(s, |str|, tail, str, t);
  }

  lemma ParseArrayStep(s: bytes, n: nat, rest: bytes, es: seq<Value>, after: bytes)
    requires s != [] && s[0] == ARRAY && n <= MAX_ARRAY_ELEMENTS
    requires ReadNumber(s[1..]) == Ok(n, rest) && ParseValues(rest, n) == Ok(es, after)
    ensures ParseValue(s) == Ok(Array(es), after)
  {
  }

  lemma {:induction false} ArrayEncoding(start: bytes, es: seq<Value>, t: bytes)
    requires AllEncodable(es)
    ensures start + Encode(Array(es)) + t == start + [ARRAY] + FormatInt(|es|) + CRLF + (EncodeAll(es) + t)
  {
  }

  lemma {:induction false} ArrayParse(tail: bytes, es: seq<Value>, t: bytes)
    requires |es| <= MAX_ARRAY_ELEMENTS && ParseValues(tail, |es|) == Ok(es, t)
    ensures ParseValue([ARRAY] + FormatInt(|es|) + CRLF + tail) == Ok(Array(es), t)
  {
    HeaderRoundTrip(ARRAY, |es|, tail);
    ParseArrayStep([ARRAY] + FormatInt(|es|) + CRLF + tail, |es|, tail, es, t);
  }

  lemma {:induction false} ArrayRoundTrip(es: seq<Value>, t: bytes)
    requires |es| <= MAX_ARRAY_ELEMENTS && AllEncodable(es)
    requires ParseValues(EncodeAll(es) + t, |es|) == Ok(es, t)
    ensures ParseValue(Encode(Array(es)) + t) == Ok(Array(es), t)
  {
    ArrayParse(EncodeAll(es) + t, es, t);
    assert Encode(Array(es)) + t == [ARRAY] + FormatInt(|es|) + CRLF + (EncodeAll(es) + t) by {
      ArrayEncoding([], es, t);
      assert [] + Encode(Array(es)) == Encode(Array(es));
      assert [] + [ARRAY] == [ARRAY];
    }
  }

  lemma {:induction false} ValueRoundTrip(v: Value, t: bytes)
    requires WellFormed(v)
    ensures Encodable(v) && ParseValue(Encode(v) + t) == Ok(v, t)
    decreases v, 0
  {
    WellFormedEncodable(v);
    match v {
      case Simple(str) => LineValueRoundTrip(SIMPLE, str, t);
      case Error(str) => LineValueRoundTrip(ERROR, str, t);
      case Integer(n) => HeaderRoundTrip(INTEGER, n, t);
      case Bulk(str) => BulkRoundTrip(str, t);
      case NullBulk => HeaderRoundTrip(BULK, -1, t);
      case Array(es) =>
        ValuesRoundTrip(es, t);
        ArrayRoundTrip(es, t);
      case NullArray => HeaderRoundTrip(ARRAY, -1, t);
    }
  }

  lemma ParseValuesStep(s: bytes, v: Value, rest: bytes, vs: seq<Value>, after: bytes)
    requires ParseValue(s) == Ok(v, rest) && ParseValues(rest, |vs|) == Ok(vs, after)
    ensures ParseValues(s, |vs| + 1) == Ok([v] + vs, after)
  {
  }

  lemma {:induction false} ValuesRoundTrip(es: seq<Value>, t: bytes)
    requires AllWellFormed(es)
    ensures AllEncodable(es)
    ensures ParseValues(EncodeAll(es) + t, |es|) == Ok(es, t)
    decreases es, 1
  {
    forall i | 0 <= i < |es| ensures Encodable(es[i]) { WellFormedEncodable(es[i]); }
    if es == [] {
      assert EncodeAll(es) + t == t;
    } else {
      var tail := EncodeAll(es[1..]) + t;
      assert EncodeAll(es) + t == Encode(es[0]) + tail;
      ValueRoundTrip(es[0], tail);
      ValuesRoundTrip(es[1..], t);
      ParseValuesStep(EncodeAll(es) + t, es[0], tail, es[1..], t);
      assert [es[0]] + es[1..] == es;
    }
  }

  /** The parser only ever produces values the grammar can carry. */
  lemma {:induction false} ParsedWellFormed(s: bytes)
    requires ParseValue(s).Ok?
    ensures WellFormed(ParseValue(s).value)
    decreases |s|, 0
  {
    if s[0] == SIMPLE || s[0] == ERROR {
      LineSafeResult(s[1..], 0);
    } else if s[0] == ARRAY {
      var r := ReadNumber(s[1..]);
      if r.value >= 0 {
        ParsedAllWellFormed(r.rest, r.value);
      }
    }
  }

  lemma {:induction false} ParsedAllWellFormed(s: bytes, n: nat)
    requires ParseValues(s, n).Ok?
    ensures AllWellFormed(ParseValues(s, n).value)
    decreases |s|, n + 1
  {
    if n != 0 {
      ParsedWellFormed(s);
      ParsedAllWellFormed(ParseValue(s).rest, n - 1);
    }
  }

  lemma ParseYieldsWellFormed(s: bytes)
    requires Parse(s).Ok?
    ensures WellFormed(Parse(s).value)
  {
    var rest := SkipNoise(s).rest;
    if IsTypeByte(rest[0]) {
      ParsedWellFormed(rest);
    } else {
      LineSafeResult(rest, 0);
      FieldsSize(ReadLine(rest, 0).value);
    }
  }

  lemma EncodeStart(v: Value)
    requires Encodable(v)
    ensures Encode(v) != [] && IsTypeByte(Encode(v)[0])
  {
  }

  lemma ParseRoundTrip(v: Value, t: bytes)
    requires WellFormed(v)
    ensures Encodable(v) && Parse(Encode(v) + t) == Ok(v, t)
  {
    ValueRoundTrip(v, t);
    EncodeStart(v);
    assert (Encode(v) + t)[0] == Encode(v)[0];
  }

  /** The round trip, exactly: an encodable value comes back from its encoding, with
      whatever follows it untouched, if and only if it is well formed. */
  lemma RoundTripIff(v: Value)
    requires Encodable(v)
    ensures (forall t :: Parse(Encode(v) + t) == Ok(v, t)) <==> WellFormed(v)
  {
    if WellFormed(v) {
      forall t ensures Parse(Encode(v) + t) == Ok(v, t) { ParseRoundTrip(v, t); }
    } else if Parse(Encode(v) + []) == Ok(v, []) {
      ParseYieldsWellFormed(Encode(v) + []);
      assert false;
    }
  }

  lemma ParseManyStep(s: bytes, v: Value, rest: bytes, vs: seq<Value>, after: bytes)
    requires Parse(s) == Ok(v, rest) && ParseMany(rest, |vs|) == Ok(vs, after)
    ensures ParseMany(s, |vs| + 1) == Ok([v] + vs, after)
  {
  }

  /** A pipeline of encoded values decodes to exactly those values. */
  lemma {:induction false} PipelineRoundTrip(vs: seq<Value>, t: bytes)
    requires AllWellFormed(vs)
    ensures AllEncodable(vs)
    ensures ParseMany(EncodeAll(vs) + t, |vs|) == Ok(vs, t)
  {
    forall i | 0 <= i < |vs| ensures Encodable(vs[i]) { WellFormedEncodable(vs[i]); }
    if vs == [] {
      assert EncodeAll(vs) + t == t;
    } else {
      var tail := EncodeAll(vs[1..]) + t;
      assert EncodeAll(vs) + t == Encode(vs[0]) + tail;
      ParseRoundTrip(vs[0], tail);
      PipelineRoundTrip(vs[1..], t);
      ParseManyStep(EncodeAll(vs) + t, vs[0], tail, vs[1..], t);
      assert [vs[0]] + vs[1..] == vs;
    }
  }

  /** Cutting an encoding short never parses and is never a protocol error: the reader is
      told to wait for more. */
  lemma PrefixIncomplete(v: Value, cut: nat)
    requires WellFormed(v) && Encodable(v) && cut < |Encode(v)|
    ensures Parse(Encode(v)[..cut]) == Fail(Eof)
  {
    var s, t := Encode(v)[..cut], Encode(v)[cut..];
    ParseStable(s, t);
    ParseRoundTrip(v, []);
    assert s + t == Encode(v) == Encode(v) + [];
  }

  /** Two well-formed values with encodings of which one begins the other are the same. */
  lemma EncodeInjective(v: Value, w: Value, t: bytes)
    requires WellFormed(v) && WellFormed(w) && Encodable(v) && Encodable(w)
    requires Encode(v) + t == Encode(w)
    ensures v == w && t == []
  {
    ParseRoundTrip(v, t);
    ParseRoundTrip(w, []);
    assert Encode(w) + [] == Encode(w);
  }
}
