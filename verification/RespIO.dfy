/** The parser and the writer as the objects they are: a reader consumed byte by byte and a
    buffer appended to, each proved against the grammar in `Resp`. */
module RespIO {
  import opened Bytes
  import opened Resp

  datatype Result<+T> = Success(value: T) | Failed(error: Failure)

  /** What a call that read from `before` and left `after` must have returned. */
  ghost predicate Reads<T>(spec: Parsed<T>, r: Result<T>, after: bytes)
  {
    match spec
    case Ok(v, rest) => r == Success(v) && after == rest
    case Fail(e) => r == Failed(e)
  }

  class Parser {
    /** What the connection has delivered and nobody has consumed. */
    var input: bytes

    constructor (stream: bytes)
      ensures input == stream
    {
      input := stream;
    }

    method ReadByte() returns (r: Result<byte>)
      modifies this
      ensures old(input) == [] ==> r == Failed(Eof) && input == []
      ensures old(input) != [] ==> r == Success(old(input)[0]) && input == old(input)[1..]
    {
      if input == [] {
        return Failed(Eof);
      }
      r := Success(input[0]);
      input := input[1..];
    }

    /** After a CR: exactly LF. */
    method ExpectLF() returns (r: Result<()>)
      modifies this
      ensures old(input) == [] ==> r == Failed(Eof)
      ensures old(input) != [] && old(input)[0] != LF ==> r == Failed(Malformed)
      ensures old(input) != [] && old(input)[0] == LF ==> r == Success(()) && input == old(input)[1..]
    {
      var nl := ReadByte();
      if nl.Failed? { return Failed(nl.error); }
      if nl.value != LF { return Failed(Malformed); }
      r := Success(());
    }

    method SkipIdleNoise() returns (r: Result<()>)
      modifies this
      ensures Reads(SkipNoise(old(input)), r, input)
    {
      while true
        invariant SkipNoise(input) == SkipNoise(old(input))
        decreases |input|
      {
        if input == [] { return Failed(Eof); }
        if input[0] == CR {
          ghost var here := input;
          var b := ReadByte();
          var lf := ExpectLF();
          if lf.Failed? { return Failed(lf.error); }
          assert here[1..][1..] == here[2..];
        } else if input[0] == LF {
          var b := ReadByte();
        } else {
          return Success(());
        }
      }
    }

    /** One line. The first 4096 bytes go to a fixed buffer and the rest to a growing one;
        the length limit is tested only once the second is in use. */
    method ReadLineBytes() returns (r: Result<bytes>)
      modifies this
      ensures Reads(ReadLine(old(input), 0), r, input)
    {
      hide ReadLine;
      ghost var start := input;
      var stack: bytes := [];
      while |stack| <= 4096
        invariant |stack| <= 4097
        invariant start == stack + input && CR !in stack
        decreases 4097 - |stack|
      {
        LineSplit(stack, input, 0);
        LineEnds(input, |stack|);
        ghost var here := input;
        var b := ReadByte();
        if b.Failed? { return Failed(b.error); }
        if b.value == CR {
          var lf := ExpectLF();
          if lf.Failed? { return Failed(lf.error); }
          assert here[1..][1..] == here[2..];
          assert stack + [] == stack;
          return Success(stack);
        }
        assert start == (stack + [b.value]) + here[1..];
        stack := stack + [b.value];
      }
      var buf := stack;
      while true
        invariant start == buf + input && CR !in buf && |buf| <= MAX_LINE_BYTES + 1
        decreases |input|
      {
        LineSplit(buf, input, 0);
        ghost var here := input;
        LineEnds(input, |buf|);
        if |buf| > MAX_LINE_BYTES { return Failed(Malformed); }
        var b := ReadByte();
        if b.Failed? { return Failed(b.error); }
        if b.value == CR {
          var lf := ExpectLF();
          if lf.Failed? { return Failed(lf.error); }
          assert here[1..][1..] == here[2..];
          assert buf + [] == buf;
          return Success(buf);
        }
        assert start == (buf + [b.value]) + here[1..];
        buf := buf + [b.value];
      }
    }

    /** A line holding a number, as length, count and integer lines are read. */
    method ReadNumberLine() returns (r: Result<int64>)
      modifies this
      ensures Reads(ReadNumber(old(input)), r, input)
    {
      var line := ReadLineBytes();
      if line.Failed? { return Failed(line.error); }
      var t := TrimSpaceBytes(line.value);
      if |t| == 0 { return Failed(Malformed); }
      var n := ParseInt(t);
      if n.None? { return Failed(Malformed); }
      r := Success(n.value);
    }

    /** `io.ReadFull` of the body, then the line break. */
    method ReadBulkBody(n: nat) returns (r: Result<bytes>)
      modifies this
      ensures Reads(ReadBody(old(input), n), r, input)
    {
      ghost var start := input;
      if |input| < n { return Failed(Eof); }
      var body := input[..n];
      input := input[n..];
      var cr := ReadByte();
      if cr.Failed? { return Failed(cr.error); }
      var lf := ReadByte();
      if lf.Failed? { return Failed(lf.error); }
      if cr.value != CR || lf.value != LF { return Failed(Malformed); }
      assert start[n..][1..][1..] == start[n + 2..];
      r := Success(body);
    }

    method ParseRESPValue() returns (r: Result<Value>)
      modifies this
      ensures Reads(ParseValue(old(input)), r, input)
      decreases |input|, 0
    {
      var typ := ReadByte();
      if typ.Failed? { return Failed(typ.error); }
      if typ.value == SIMPLE {
        var line := ReadLineBytes();
        if line.Failed? { return Failed(line.error); }
        r := Success(Simple(line.value));
      } else if typ.value == ERROR {
        var line := ReadLineBytes();
        if line.Failed? { return Failed(line.error); }
        r := Success(Error(line.value));
      } else if typ.value == INTEGER {
        var n := ReadNumberLine();
        if n.Failed? { return Failed(n.error); }
        r := Success(Integer(n.value));
      } else if typ.value == BULK {
        r := ParseBulkString();
      } else if typ.value == ARRAY {
        r := ParseArray();
      } else {
        r := Failed(Malformed);
      }
    }

    method ParseBulkString() returns (r: Result<Value>)
      modifies this
      ensures Reads(ParseValue([BULK] + old(input)), r, input)
    {
      assert ([BULK] + input)[1..] == input;
      var n := ReadNumberLine();
      if n.Failed? { return Failed(n.error); }
      if n.value < -1 { return Failed(Malformed); }
      if n.value == -1 { return Success(NullBulk); }
      if n.value > MAX_BULK_BYTES { return Failed(Malformed); }
      var body := ReadBulkBody(n.value);
      if body.Failed? { return Failed(body.error); }
      r := Success(Bulk(body.value));
    }

    /** The element loop of an array. */
    method ParseElements(n: nat) returns (r: Result<seq<Value>>)
      modifies this
      ensures Reads(ParseValues(old(input), n), r, input)
      decreases |input|, 1
    {
      ghost var start := input;
      PrependsNothing(ParseValues(start, n));
      var out: seq<Value> := [];
      for i := 0 to n
        invariant |out| == i && |input| <= |start|
        invariant Prepends(out, ParseValues(input, n - i), ParseValues(start, n))
      {
        var v := ParseRESPValue();
        if v.Failed? { return Failed(v.error); }
        PrependsNext(out, v.value, ParseValues(input, n - i - 1), ParseValues(start, n));
        out := out + [v.value];
      }
      assert out + [] == out;
      r := Success(out);
    }

    method ParseArray() returns (r: Result<Value>)
      modifies this
      ensures Reads(ParseValue([ARRAY] + old(input)), r, input)
      decreases |input|, 2
    {
      assert ([ARRAY] + input)[1..] == input;
      var n := ReadNumberLine();
      if n.Failed? { return Failed(n.error); }
      if n.value < -1 { return Failed(Malformed); }
      if n.value == -1 { return Success(NullArray); }
      if n.value > MAX_ARRAY_ELEMENTS { return Failed(Malformed); }
      var out := ParseElements(n.value);
      if out.Failed? { return Failed(out.error); }
      r := Success(Array(out.value));
    }

    method ParseInlineCommand() returns (r: Result<Value>)
      modifies this
      ensures Reads(ParseInline(old(input)), r, input)
    {
      var line := ReadLineBytes();
      if line.Failed? { return Failed(line.error); }
      var fields := Fields(line.value);
      if |fields| == 0 { return Failed(Malformed); }
      var arr: seq<Value> := [];
      for i := 0 to |fields|
        invariant |arr| == i
        invariant forall j :: 0 <= j < i ==> arr[j] == Bulk(fields[j])
      {
        arr := arr + [Bulk(fields[i])];
      }
      assert arr == seq(|fields|, i requires 0 <= i < |fields| => Bulk(fields[i]));
      r := Success(Array(arr));
    }

    /** One RESP value or one inline command; what follows it stays for the next call. */
    method ParseCommand() returns (r: Result<Value>)
      modifies this
      ensures Reads(Parse(old(input)), r, input)
    {
      var skipped := SkipIdleNoise();
      if skipped.Failed? { return Failed(skipped.error); }
      // The type byte is read and put back, so the choice below sees it still unread.
      if IsTypeByte(input[0]) {
        r := ParseRESPValue();
      } else {
        r := ParseInlineCommand();
      }
    }

    /** Draining a pipeline of `n` commands, one call after another. */
    method ParsePipeline(n: nat) returns (r: Result<seq<Value>>)
      modifies this
      ensures Reads(ParseMany(old(input), n), r, input)
    {
      ghost var start := input;
      PrependsNothing(ParseMany(start, n));
      var out: seq<Value> := [];
      for i := 0 to n
        invariant |out| == i
        invariant Prepends(out, ParseMany(input, n - i), ParseMany(start, n))
      {
        var v := ParseCommand();
        if v.Failed? { return Failed(v.error); }
        PrependsNext(out, v.value, ParseMany(input, n - i - 1), ParseMany(start, n));
        out := out + [v.value];
      }
      assert out + [] == out;
      r := Success(out);
    }
  }

  /** Reading the rest gives, behind what is already read, what reading everything gives. */
  ghost predicate Prepends<T>(done: seq<T>, tail: Parsed<seq<T>>, whole: Parsed<seq<T>>)
  {
    match tail
    case Ok(vs, rest) => whole == Ok(done + vs, rest)
    case Fail(e) => whole == Fail(e)
  }

  lemma PrependsNothing<T>(tail: Parsed<seq<T>>)
    ensures Prepends([], tail, tail)
  {
    if tail.Ok? { assert [] + tail.value == tail.value; }
  }

  lemma PrependsNext<T>(done: seq<T>, v: T, tail: Parsed<seq<T>>, whole: Parsed<seq<T>>)
    requires Prepends(done, Cons(v, tail), whole)
    ensures Prepends(done + [v], tail, whole)
  {
    if tail.Ok? { assert done + ([v] + tail.value) == done + [v] + tail.value; }
  }

  /** The ways a line can end here. */
  lemma LineEnds(s: bytes, n: nat)
    ensures n > MAX_LINE_BYTES ==> ReadLine(s, n) == Resp.Fail(Malformed)
    ensures n <= MAX_LINE_BYTES && s == [] ==> ReadLine(s, n) == Resp.Fail(Eof)
    ensures n <= MAX_LINE_BYTES && s != [] && s[0] == CR ==>
              ReadLine(s, n) == if |s| == 1 then Resp.Fail(Eof)
                                else if s[1] != LF then Resp.Fail(Malformed) else Ok([], s[2..])
  {
  }

  lemma {:induction false} LineSplit(done: bytes, s: bytes, n: nat)
    requires CR !in done && n + |done| <= MAX_LINE_BYTES + 1
    ensures Prepends(done, ReadLine(s, n + |done|), ReadLine(done + s, n))
    decreases |done|
  {
    if done == [] {
      assert done + s == s;
      match ReadLine(s, n) {
        case Ok(l, _) => assert done + l == l;
        case Fail(_) =>
      }
    } else {
      LineSplit(done[1..], s, n + 1);
      assert (done + s)[1..] == done[1..] + s;
      match ReadLine(s, n + |done|) {
        case Ok(l, _) => assert [done[0]] + (done[1..] + l) == done + l;
        case Fail(_) =>
      }
    }
  }

  class Writer {
    /** Everything written so far. */
    var out: bytes

    constructor ()
      ensures out == []
    {
      out := [];
    }

    method WriteLine(typ: byte, s: bytes)
      modifies this
      ensures out == old(out) + [typ] + s + CRLF
    {
      out := out + [typ];
      out := out + s;
      out := out + CRLF;
    }

    method WriteBulkString(b: bytes)
      modifies this
      ensures out == old(out) + Encode(Bulk(b))
    {
      WriteLine(BULK, FormatInt(|b|));
      if |b| > 0 {
        out := out + b;
      }
      out := out + CRLF;
    }

    /** Elements are encoded in order; the first that cannot be encoded stops the write. */
    method WriteElements(elems: seq<Value>) returns (ok: bool)
      modifies this
      ensures ok <==> AllEncodable(elems)
      ensures ok ==> out == old(out) + EncodeAll(elems)
      decreases elems, 1
    {
      ghost var start := out;
      var i := 0;
      while i < |elems|
        invariant 0 <= i <= |elems|
        invariant AllEncodable(elems[..i])
        invariant out == start + EncodeAll(elems[..i])
      {
        ok := WriteValue(elems[i]);
        if !ok { return; }
        assert elems[..i] + [elems[i]] == elems[..i + 1];
        assert start + EncodeAll(elems[..i + 1]) == start + EncodeAll(elems[..i]) + Encode(elems[i]) by {
          EncodeAllSnoc(elems[..i], elems[i]);
        }
        i := i + 1;
      }
      assert elems[..i] == elems;
      ok := true;
    }

    method WriteArray(elems: seq<Value>) returns (ok: bool)
      modifies this
      ensures ok <==> Encodable(Array(elems))
      ensures ok ==> out == old(out) + Encode(Array(elems))
      decreases elems, 2
    {
      ghost var start := out;
      WriteLine(ARRAY, FormatInt(|elems|));
      ok := WriteElements(elems);
      if ok {
        ArrayEncoding(start, elems, []);
        assert EncodeAll(elems) + [] == EncodeAll(elems);
      }
    }

    /** Any value, nested arrays included; a type byte that is none of the five is refused. */
    method WriteValue(v: Value) returns (ok: bool)
      modifies this
      ensures ok <==> Encodable(v)
      ensures ok ==> out == old(out) + Encode(v)
      decreases v, 0
    {
      ok := true;
      match v {
        case Simple(s) => WriteLine(SIMPLE, s);
        case Error(s) => WriteLine(ERROR, s);
        case Integer(n) => WriteLine(INTEGER, FormatInt(n));
        case Bulk(s) => WriteBulkString(s);
        case NullBulk => WriteLine(BULK, FormatInt(-1));
        case Array(es) => ok := WriteArray(es);
        case NullArray => WriteLine(ARRAY, FormatInt(-1));
        case Unknown(_) => ok := false;
      }
    }
  }

  lemma {:induction false} EncodeAllSnoc(es: seq<Value>, e: Value)
    requires Encodable(e) && AllEncodable(es)
    ensures AllEncodable(es + [e])
    ensures EncodeAll(es + [e]) == EncodeAll(es) + Encode(e)
  {
    if es == [] {
      assert es + [e] == [e];
      assert EncodeAll([e]) == Encode(e) + EncodeAll([]);
    } else {
      EncodeAllSnoc(es[1..], e);
      assert (es + [e])[1..] == es[1..] + [e];
    }
  }

  /** End to end: whatever a fresh writer accepts and a parser then reads is, for well-formed
      values, exactly what was written. */
  method WriteThenParse(vs: seq<Value>, trailing: bytes) returns (r: Result<seq<Value>>, left: bytes)
    requires AllWellFormed(vs)
    ensures r == Success(vs) && left == trailing
  {
    var w := new Writer();
    PipelineRoundTrip(vs, trailing);
    var ok := w.WriteElements(vs);
    assert w.out == EncodeAll(vs);
    var p := new Parser(w.out + trailing);
    r := p.ParsePipeline(|vs|);
    left := p.input;
  }
}
