/** List writes, DEL and RENAME on one node, the payloads they send, and what applying those
    payloads does on another. */
module Replication {
  import opened Bytes
  import opened Lists
  import opened Keyspace

  datatype Op =
    | SetOp | DelOp | FlushOp | RenameOp | HSetOp | HDelOp | SAddOp | SRemOp | ReplaceSetOp
    | LPushOp | RPushOp | LPopOp | RPopOp | LRemOp | LSetOp | LTrimOp | LInsertBefore | LInsertAfter
    | UnknownOp

  datatype Payload = Payload(
    op: Op, key: bytes, value: bytes, cnt: int, dest: bytes, fields: map<bytes, bytes>, members: items)

  function Message(op: Op, key: bytes): Payload { Payload(op, key, [], 0, [], map[], []) }

  /** What a payload does to the data that receives it; a failed reply is an apply error. */
  function Apply(d: Data, p: Payload): Outcome
  {
    match p.op
    case SetOp => Outcome(d[p.key := Str(p.value)], Num(0))
    case DelOp => Outcome(d - {p.key}, Num(0))
    case FlushOp => Outcome(map[], Num(0))
    case RenameOp => Rename(d, p.key, p.dest)
    case HSetOp => HashSet(d, p.key, p.fields)
    case HDelOp => HashDel(d, p.key, p.members)
    case SAddOp => SetAdd(d, p.key, p.members)
    case SRemOp => if p.members == [] then Outcome(d, Num(0)) else SetRem(d, p.key, p.members)
    case ReplaceSetOp => Outcome(d[p.key := Set(KeySet(p.members))], Num(0))
    case UnknownOp => Outcome(d, Fail(BadPayload))
    case _ => ApplyList(d, p)
  }

  function ApplyList(d: Data, p: Payload): Outcome
  {
    match p.op
    case LPushOp => ApplyPush(d, p, true)
    case RPushOp => ApplyPush(d, p, false)
    case LPopOp => ListPop(d, p.key, p.cnt, true)
    case RPopOp => ListPop(d, p.key, p.cnt, false)
    case LRemOp => ListRem(d, p.key, p.cnt, p.value)
    case LSetOp => ListSet(d, p.key, p.cnt, p.value)
    case LTrimOp => ApplyTrim(d, p)
    case LInsertBefore => ApplyInsert(d, p, true)
    case LInsertAfter => ApplyInsert(d, p, false)
    case _ => Outcome(d, Num(0))
  }

  function ApplyPush(d: Data, p: Payload, left: bool): Outcome
  {
    if p.members == [] then Outcome(d, Num(0)) else ListPush(d, p.key, p.members, left)
  }

  function ApplyTrim(d: Data, p: Payload): Outcome
  {
    if |p.members| < 2 then Outcome(d, Num(0))
    else
      var start, stop := ParseInt(p.members[0]), ParseInt(p.members[1]);
      if start.None? || stop.None? then Outcome(d, Fail(BadPayload))
      else ListTrim(d, p.key, start.value, stop.value)
  }

  function ApplyInsert(d: Data, p: Payload, before: bool): Outcome
  {
    if |p.members| < 2 then Outcome(d, Num(0)) else ListInsert(d, p.key, before, p.members[0], p.members[1])
  }

  /** Payloads applied in order, `None` once one of them is refused. */
  function Applied(d: Data, ps: seq<Payload>): Option<Data>
    decreases |ps|
  {
    if ps == [] then Some(d)
    else
      var o := Apply(d, ps[0]);
      if o.reply.Fail? then None else Applied(o.data, ps[1..])
  }

  lemma {:induction false} AppliedConcat(d: Data, a: seq<Payload>, b: seq<Payload>)
    requires Applied(d, a).Some?
    ensures Applied(d, a + b) == Applied(Applied(d, a).value, b)
    decreases |a|
  {
    if a == [] {
      assert a + b == b;
    } else {
      assert (a + b)[1..] == a[1..] + b;
      AppliedConcat(Apply(d, a[0]).data, a[1..], b);
    }
  }

  datatype Verb =
    | LPUSH | RPUSH | LPUSHX | RPUSHX | LPOP | RPOP | LSET | LREM | LTRIM | LINSERT | DEL | RENAME | RENAMENX

  /** A command as received: the arguments include the command name itself. */
  datatype Command = Command(verb: Verb, args: seq<bytes>)

  datatype Answer =
    | OK | Integer(n: int) | Bulk(b: bytes) | Nil | Array(vs: items)
    | ArityError | NotInteger | SyntaxError | Refused(error: Error)

  /** What running a command leads to: the new data, the payloads sent, the reply. */
  datatype Effect = Effect(data: Data, sent: seq<Payload>, answer: Answer)

  function NoEffect(d: Data, a: Answer): Effect { Effect(d, [], a) }

  function PushEffect(d: Data, args: seq<bytes>, left: bool, mustExist: bool): Effect
  {
    if |args| < 3 then NoEffect(d, ArityError)
    else
      var key, vals := args[1], args[2..];
      var o := if mustExist then ListPushX(d, key, vals, left) else ListPush(d, key, vals, left);
      match o.reply
      case Fail(e) => NoEffect(o.data, Refused(e))
      case Num(n) => Effect(o.data, if mustExist && n <= 0 then [] else [PushMessage(key, vals, left)], Integer(n))
      case _ => NoEffect(o.data, Nil)
  }

  function PushMessage(key: bytes, vals: items, left: bool): Payload
  {
    Message(if left then LPushOp else RPushOp, key).(members := vals)
  }

  function PopMessage(key: bytes, n: nat, left: bool): Payload
  {
    Message(if left then LPopOp else RPopOp, key).(cnt := n)
  }

  function PopEffect(d: Data, args: seq<bytes>, left: bool): Effect
  {
    if |args| < 2 || |args| > 3 then NoEffect(d, ArityError)
    else
      var c := if |args| == 3 then ParseInt(args[2]) else Some(1);
      if c.None? || c.value <= 0 then NoEffect(d, NotInteger)
      else
        var o := ListPop(d, args[1], c.value, left);
        match o.reply
        case Values(vs) =>
          Effect(o.data, if |vs| > 0 then [PopMessage(args[1], |vs|, left)] else [], PopAnswer(vs, |args| == 2))
        case Fail(e) => NoEffect(o.data, Refused(e))
        case _ => NoEffect(o.data, Nil)
  }

  function PopAnswer(vs: items, single: bool): Answer
  {
    if single then (if vs == [] then Nil else Bulk(vs[0])) else Array(vs)
  }

  function SetEffect(d: Data, args: seq<bytes>): Effect
  {
    if |args| != 4 then NoEffect(d, ArityError)
    else
      var i := ParseInt(args[2]);
      if i.None? then NoEffect(d, NotInteger)
      else
        var o := ListSet(d, args[1], i.value, args[3]);
        if o.reply.Fail? then NoEffect(o.data, Refused(o.reply.error))
        else Effect(o.data, [Message(LSetOp, args[1]).(cnt := i.value, value := args[3])], OK)
  }

  function RemEffect(d: Data, args: seq<bytes>): Effect
  {
    if |args| != 4 then NoEffect(d, ArityError)
    else
      var c := ParseInt(args[2]);
      if c.None? then NoEffect(d, NotInteger)
      else
        var o := ListRem(d, args[1], c.value, args[3]);
        match o.reply
        case Num(n) =>
          Effect(o.data, if n > 0 then [Message(LRemOp, args[1]).(cnt := c.value, value := args[3])] else [], Integer(n))
        case Fail(e) => NoEffect(o.data, Refused(e))
        case _ => NoEffect(o.data, Nil)
  }

  function TrimMessage(key: bytes, start: int, stop: int): Payload
  {
    Message(LTrimOp, key).(members := [FormatInt(start), FormatInt(stop)])
  }

  function TrimEffect(d: Data, args: seq<bytes>): Effect
  {
    if |args| != 4 then NoEffect(d, ArityError)
    else
      var start, stop := ParseInt(args[2]), ParseInt(args[3]);
      if start.None? || stop.None? then NoEffect(d, NotInteger)
      else
        var o := ListTrim(d, args[1], start.value, stop.value);
        if o.reply.Fail? then NoEffect(o.data, Refused(o.reply.error))
        else Effect(o.data, [TrimMessage(args[1], start.value, stop.value)], OK)
  }

  function Upper(s: bytes): bytes { seq(|s|, i requires 0 <= i < |s| => if 97 <= s[i] <= 122 then s[i] - 32 else s[i]) }

  const BEFORE: bytes := [66, 69, 70, 79, 82, 69]
  const AFTER: bytes := [65, 70, 84, 69, 82]

  function InsertMessage(key: bytes, before: bool, pivot: bytes, x: bytes): Payload
  {
    Message(if before then LInsertBefore else LInsertAfter, key).(members := [pivot, x])
  }

  /** A missing key answers 0 and is still sent; a missing pivot answers -1 and is not. */
  function InsertEffect(d: Data, args: seq<bytes>): Effect
  {
    if |args| != 5 then NoEffect(d, ArityError)
    else if Upper(args[2]) != BEFORE && Upper(args[2]) != AFTER then NoEffect(d, SyntaxError)
    else
      var before := Upper(args[2]) == BEFORE;
      var o := ListInsert(d, args[1], before, args[3], args[4]);
      match o.reply
      case Num(n) =>
        if n < 0 then NoEffect(o.data, Integer(-1))
        else Effect(o.data, [InsertMessage(args[1], before, args[3], args[4])], Integer(n))
      case Fail(e) => NoEffect(o.data, Refused(e))
      case _ => NoEffect(o.data, Nil)
  }

  function RenameMessage(src: bytes, dst: bytes): Payload { Message(RenameOp, src).(dest := dst) }

  function RenameEffect(d: Data, args: seq<bytes>): Effect
  {
    if |args| != 3 then NoEffect(d, ArityError)
    else
      var o := Rename(d, args[1], args[2]);
      if o.reply.Fail? then NoEffect(o.data, Refused(o.reply.error))
      else Effect(o.data, [RenameMessage(args[1], args[2])], OK)
  }

  function RenameNXEffect(d: Data, args: seq<bytes>): Effect
  {
    if |args| != 3 then NoEffect(d, ArityError)
    else if args[1] !in d then NoEffect(d, Refused(NoSuchKey))
    else
      var o := RenameNX(d, args[1], args[2]);
      if o.reply == Num(1) then Effect(o.data, [RenameMessage(args[1], args[2])], Integer(1))
      else NoEffect(o.data, Integer(0))
  }

  /** DEL sends one payload per key that was there, in whatever order the map yields them. */
  ghost predicate Deletes(d: Data, args: seq<bytes>, e: Effect)
  {
    if |args| < 2 then e == NoEffect(d, ArityError)
    else
      var gone := d.Keys * KeySet(args[1..]);
      && e.data == d - KeySet(args[1..])
      && e.answer == Integer(|d.Keys| - |e.data.Keys|)
      && Announces(e.sent, gone)
  }

  ghost predicate Announces(sent: seq<Payload>, gone: set<bytes>)
  {
    && (forall p :: p in sent ==> p.key in gone && p == Message(DelOp, p.key))
    && (forall k :: k in gone ==> Message(DelOp, k) in sent)
    && (forall i, j :: 0 <= i < j < |sent| ==> sent[i] != sent[j])
  }

  function Effects(d: Data, c: Command): Effect
    requires c.verb != DEL
  {
    match c.verb
    case LPUSH => PushEffect(d, c.args, true, false)
    case RPUSH => PushEffect(d, c.args, false, false)
    case LPUSHX => PushEffect(d, c.args, true, true)
    case RPUSHX => PushEffect(d, c.args, false, true)
    case LPOP => PopEffect(d, c.args, true)
    case RPOP => PopEffect(d, c.args, false)
    case LSET => SetEffect(d, c.args)
    case LREM => RemEffect(d, c.args)
    case LTRIM => TrimEffect(d, c.args)
    case LINSERT => InsertEffect(d, c.args)
    case RENAME => RenameEffect(d, c.args)
    case RENAMENX => RenameNXEffect(d, c.args)
  }

  /** The possible effects of a command. */
  ghost predicate Does(d: Data, c: Command, e: Effect)
  {
    if c.verb == DEL then Deletes(d, c.args, e) else e == Effects(d, c)
  }

  /** A command's payloads reproduce its effect on equal data. */
  ghost predicate Mirrored(d: Data, e: Effect)
  {
    Applied(d, e.sent) == Some(e.data)
  }

  lemma MirroredBy(d: Data, e: Effect, p: Payload)
    requires e.sent == [p] && !Apply(d, p).reply.Fail? && Apply(d, p).data == e.data
    ensures Mirrored(d, e)
  {
    assert e.sent[1..] == [];
  }

  lemma PushSimulated(d: Data, args: seq<bytes>, left: bool, mustExist: bool)
    ensures Mirrored(d, PushEffect(d, args, left, mustExist))
  {
    var e := PushEffect(d, args, left, mustExist);
    if e.sent != [] {
      MirroredBy(d, e, PushMessage(args[1], args[2..], left));
    }
  }

  /** Popping the number of elements that came out takes out the same ones. */
  lemma PopAgain(l: items, count: int, left: bool)
    requires l != [] && count > 0
    ensures PopCount(l, count) > 0 && |PopOut(l, count, left)| == PopCount(l, count)
    ensures PopRest(l, PopCount(l, count), left) == PopRest(l, count, left)
  {
  }

  lemma PopSimulated(d: Data, args: seq<bytes>, left: bool)
    ensures Mirrored(d, PopEffect(d, args, left))
  {
    hide PopRest, PopOut, PopCount, ParseInt;
    var e := PopEffect(d, args, left);
    if e.sent != [] {
      var key := args[1];
      var c: int := if |args| == 3 then ParseInt(args[2]).value else 1;
      var o := ListPop(d, key, c, left);
      var p := PopMessage(key, |o.reply.vs|, left);
      assert e == Effect(o.data, [p], PopAnswer(o.reply.vs, |args| == 2));
      assert Apply(d, p).data == o.data && !Apply(d, p).reply.Fail? by {
        PopAgain(d[key].list, c, left);
      }
      MirroredBy(d, e, p);
    } else {
      PopSilent(d, args, left);
    }
  }

  lemma PopSilent(d: Data, args: seq<bytes>, left: bool)
    ensures PopEffect(d, args, left).sent == [] ==> PopEffect(d, args, left).data == d
  {
    hide PopRest, PopOut, PopCount, ParseInt;
    if (|args| == 2 || |args| == 3) && args[1] in d && d[args[1]].List? && d[args[1]].list != [] {
      var c := if |args| == 3 then ParseInt(args[2]) else Some(1);
      if c.Some? && c.value > 0 {
        PopAgain(d[args[1]].list, c.value, left);
      }
    }
  }

  lemma SetSimulated(d: Data, args: seq<bytes>)
    ensures Mirrored(d, SetEffect(d, args))
  {
    var e := SetEffect(d, args);
    if e.sent != [] { MirroredBy(d, e, e.sent[0]); }
  }

  /** An LREM that finds nothing sends nothing, and leaves the list as it was. */
  lemma RemSimulated(d: Data, args: seq<bytes>)
    ensures Mirrored(d, RemEffect(d, args))
  {
    var e := RemEffect(d, args);
    if e.sent != [] {
      MirroredBy(d, e, e.sent[0]);
    } else if |args| == 4 && ParseInt(args[2]).Some? {
      RemSilent(d, args[1], ParseInt(args[2]).value, args[3]);
    }
  }

  lemma RemSilent(d: Data, key: bytes, count: int, v: bytes)
    ensures var o := ListRem(d, key, count, v);
      o.reply.Fail? || (o.reply.Num? && o.reply.n <= 0) ==> o.data == d
  {
    if key in d && d[key].List? && d[key].list != [] {
      var l := d[key].list;
      if |Remove(l, count, v)| == |l| {
        RemoveNothing(l, count, v);
        assert d[key := List(l)] == d;
      }
    }
  }

  lemma RemoveNothing(l: items, count: int, v: bytes)
    requires |Remove(l, count, v)| == |l|
    ensures Remove(l, count, v) == l
  {
    if count == 0 {
      RemoveFirstNothing(l, v, |l|);
    } else if count > 0 {
      RemoveFirstNothing(l, v, count);
    } else if Negate64(count) >= 0 {
      RemoveLastNothing(l, v, Negate64(count));
    }
  }

  lemma {:induction false} RemoveFirstNothing(l: items, v: bytes, k: nat)
    requires |RemoveFirst(l, v, k)| == |l|
    ensures RemoveFirst(l, v, k) == l
  {
    if l != [] && k > 0 && l[0] != v { RemoveFirstNothing(l[1..], v, k); }
  }

  lemma {:induction false} RemoveLastNothing(l: items, v: bytes, k: nat)
    requires |RemoveLast(l, v, k)| == |l|
    ensures RemoveLast(l, v, k) == l
  {
    var n := |l|;
    if l != [] && k > 0 && l[n - 1] != v { RemoveLastNothing(l[..n - 1], v, k); }
  }

  /** The bounds of LTRIM travel as decimal text. */
  lemma TrimSimulated(d: Data, args: seq<bytes>)
    ensures Mirrored(d, TrimEffect(d, args))
  {
    var e := TrimEffect(d, args);
    if e.sent != [] {
      var start, stop := ParseInt(args[2]).value, ParseInt(args[3]).value;
      ParseFormat(start);
      ParseFormat(stop);
      var p := TrimMessage(args[1], start, stop);
      assert e.sent == [p];
      assert Apply(d, p) == ListTrim(d, args[1], start, stop);
      MirroredBy(d, e, p);
    }
  }

  lemma InsertSimulated(d: Data, args: seq<bytes>)
    ensures Mirrored(d, InsertEffect(d, args))
  {
    var e := InsertEffect(d, args);
    if e.sent != [] { MirroredBy(d, e, e.sent[0]); }
  }

  lemma RenameSimulated(d: Data, args: seq<bytes>)
    ensures Mirrored(d, RenameEffect(d, args)) && Mirrored(d, RenameNXEffect(d, args))
  {
    var e, f := RenameEffect(d, args), RenameNXEffect(d, args);
    if e.sent != [] { MirroredBy(d, e, RenameMessage(args[1], args[2])); }
    if f.sent != [] { MirroredBy(d, f, RenameMessage(args[1], args[2])); }
  }

  function Named(sent: seq<Payload>): set<bytes> { set p | p in sent :: p.key }

  /** Announced deletions, applied in any order, take away exactly the announced keys. */
  lemma {:induction false} DeletionsApplied(d: Data, sent: seq<Payload>)
    requires forall p :: p in sent ==> p == Message(DelOp, p.key)
    ensures Applied(d, sent).Some?
    ensures Applied(d, sent).value == d - Named(sent)
  {
    if sent != [] {
      var k := sent[0].key;
      var rest := Named(sent[1..]);
      DeletionsApplied(d - {k}, sent[1..]);
      assert Named(sent) == {k} + rest by {
        assert sent == [sent[0]] + sent[1..];
      }
      assert d - ({k} + rest) == d - {k} - rest;
    } else {
      assert Named(sent) == {};
    }
  }

  lemma DelSimulated(d: Data, args: seq<bytes>, e: Effect)
    requires Deletes(d, args, e)
    ensures Mirrored(d, e)
  {
    if |args| >= 2 {
      var keys := KeySet(args[1..]);
      DeletionsApplied(d, e.sent);
      AnnouncedKeys(e.sent, d.Keys * keys);
      MinusShared(d, keys);
    }
  }

  lemma MinusShared(d: Data, keys: set<bytes>)
    ensures d - (d.Keys * keys) == d - keys
  {
  }

  lemma AnnouncedKeys(sent: seq<Payload>, gone: set<bytes>)
    requires Announces(sent, gone)
    ensures Named(sent) == gone
  {
    forall k | k in gone ensures k in Named(sent) {
      assert Message(DelOp, k).key == k;
    }
  }

  /** One command: its payloads, applied to equal data, are all accepted and give equal data
      again, whether the command succeeded, failed or had nothing to say. */
  lemma CommandSimulated(d: Data, c: Command, e: Effect)
    requires Does(d, c, e)
    ensures Mirrored(d, e)
  {
    match c.verb
    case LPUSH => PushSimulated(d, c.args, true, false);
    case RPUSH => PushSimulated(d, c.args, false, false);
    case LPUSHX => PushSimulated(d, c.args, true, true);
    case RPUSHX => PushSimulated(d, c.args, false, true);
    case LPOP => PopSimulated(d, c.args, true);
    case RPOP => PopSimulated(d, c.args, false);
    case LSET => SetSimulated(d, c.args);
    case LREM => RemSimulated(d, c.args);
    case LTRIM => TrimSimulated(d, c.args);
    case LINSERT => InsertSimulated(d, c.args);
    case DEL => DelSimulated(d, c.args, e);
    case RENAME => RenameSimulated(d, c.args);
    case RENAMENX => RenameSimulated(d, c.args);
  }

  /** A command that sends nothing changed nothing. */
  lemma SilenceMeansUnchanged(d: Data, c: Command, e: Effect)
    requires Does(d, c, e) && e.sent == []
    ensures e.data == d
  {
    CommandSimulated(d, c, e);
  }

  datatype Event = Event(command: Command, effect: Effect)

  /** A node's history: each command starts from the data the one before it left. */
  ghost predicate History(d: Data, run: seq<Event>)
    decreases |run|
  {
    run == [] || (Does(d, run[0].command, run[0].effect) && History(run[0].effect.data, run[1..]))
  }

  function Sent(run: seq<Event>): seq<Payload>
  {
    if run == [] then [] else run[0].effect.sent + Sent(run[1..])
  }

  function Final(d: Data, run: seq<Event>): Data
  {
    if run == [] then d else run[|run| - 1].effect.data
  }

  /** Whole runs: a replica that starts equal and applies what was sent is equal after every
      command. */
  lemma {:induction false} RunSimulated(d: Data, run: seq<Event>, n: nat)
    requires History(d, run) && n <= |run|
    ensures Applied(d, Sent(run[..n])) == Some(Final(d, run[..n]))
    decreases n
  {
    if n > 0 {
      var next := run[0].effect.data;
      CommandSimulated(d, run[0].command, run[0].effect);
      RunSimulated(next, run[1..], n - 1);
      assert run[..n][1..] == run[1..][..n - 1];
      assert run[..n][0] == run[0];
      assert Final(d, run[..n]) == Final(next, run[1..][..n - 1]);
      AppliedConcat(d, run[0].effect.sent, Sent(run[1..][..n - 1]));
    }
  }

  class Node {
    const db: Database
    var sent: seq<Payload>

    constructor (db: Database)
      ensures this.db == db && sent == []
    {
      this.db := db;
      sent := [];
    }

    method Push(args: seq<bytes>, left: bool, mustExist: bool) returns (a: Answer, out: seq<Payload>)
      modifies db
      ensures Effect(db.data, out, a) == PushEffect(old(db.data), args, left, mustExist)
    {
      if |args| < 3 { return ArityError, []; }
      var key, vals := args[1], args[2..];
      var r;
      if mustExist { r := db.LPushX(key, vals, left); } else { r := db.LPush(key, vals, left); }
      match r {
        case Fail(e) => return Refused(e), [];
        case Num(n) =>
          if mustExist && n <= 0 { return Integer(n), []; }
          return Integer(n), [PushMessage(key, vals, left)];
        case _ => return Nil, [];
      }
    }

    method Pop(args: seq<bytes>, left: bool) returns (a: Answer, out: seq<Payload>)
      modifies db
      ensures Effect(db.data, out, a) == PopEffect(old(db.data), args, left)
    {
      if |args| < 2 || |args| > 3 { return ArityError, []; }
      var count: int := 1;
      if |args| == 3 {
        var c := ParseInt(args[2]);
        if c.None? || c.value <= 0 { return NotInteger, []; }
        count := c.value;
      }
      var r := db.Pop(args[1], count, left);
      match r {
        case Fail(e) => return Refused(e), [];
        case Values(vs) =>
          a := PopAnswer(vs, |args| == 2);
          out := if |vs| > 0 then [PopMessage(args[1], |vs|, left)] else [];
        case _ => return Nil, [];
      }
    }

    method LSet(args: seq<bytes>) returns (a: Answer, out: seq<Payload>)
      modifies db
      ensures Effect(db.data, out, a) == SetEffect(old(db.data), args)
    {
      if |args| != 4 { return ArityError, []; }
      var i := ParseInt(args[2]);
      if i.None? { return NotInteger, []; }
      var r := db.LSet(args[1], i.value, args[3]);
      if r.Fail? { return Refused(r.error), []; }
      return OK, [Message(LSetOp, args[1]).(cnt := i.value, value := args[3])];
    }

    method LRem(args: seq<bytes>) returns (a: Answer, out: seq<Payload>)
      modifies db
      ensures Effect(db.data, out, a) == RemEffect(old(db.data), args)
    {
      if |args| != 4 { return ArityError, []; }
      var c := ParseInt(args[2]);
      if c.None? { return NotInteger, []; }
      var r := db.LRem(args[1], c.value, args[3]);
      match r {
        case Fail(e) => return Refused(e), [];
        case Num(n) =>
          a := Integer(n);
          out := if n > 0 then [Message(LRemOp, args[1]).(cnt := c.value, value := args[3])] else [];
        case _ => return Nil, [];
      }
    }

    method LTrim(args: seq<bytes>) returns (a: Answer, out: seq<Payload>)
      modifies db
      ensures Effect(db.data, out, a) == TrimEffect(old(db.data), args)
    {
      if |args| != 4 { return ArityError, []; }
      var start, stop := ParseInt(args[2]), ParseInt(args[3]);
      if start.None? || stop.None? { return NotInteger, []; }
      var r := db.LTrim(args[1], start.value, stop.value);
      if r.Fail? { return Refused(r.error), []; }
      return OK, [TrimMessage(args[1], start.value, stop.value)];
    }

    method LInsert(args: seq<bytes>) returns (a: Answer, out: seq<Payload>)
      modifies db
      ensures Effect(db.data, out, a) == InsertEffect(old(db.data), args)
    {
      if |args| != 5 { return ArityError, []; }
      var where, before := Upper(args[2]), false;
      if where == BEFORE {
        before := true;
      } else if where != AFTER {
        return SyntaxError, [];
      }
      var r := db.LInsert(args[1], before, args[3], args[4]);
      match r {
        case Fail(e) => return Refused(e), [];
        case Num(n) =>
          if n < 0 { return Integer(-1), []; }
          return Integer(n), [InsertMessage(args[1], before, args[3], args[4])];
        case _ => return Nil, [];
      }
    }

    /** Looks first which keys exist, deletes, then announces the ones that did. */
    method Del(args: seq<bytes>) returns (a: Answer, out: seq<Payload>)
      modifies db
      ensures Deletes(old(db.data), args, Effect(db.data, out, a))
    {
      if |args| < 2 { return ArityError, []; }
      var keys := args[1..];
      var existing: set<bytes> := {};
      for i := 0 to |keys|
        invariant db.data == old(db.data)
        invariant existing == db.data.Keys * KeySet(keys[..i])
      {
        KeySetSnoc(keys, i);
        if keys[i] in db.data {
          existing := existing + {keys[i]};
        }
      }
      assert keys[..|keys|] == keys;
      var n := db.Del(keys);
      out := Announce(existing);
      a := Integer(n);
    }

    method Announce(existing: set<bytes>) returns (out: seq<Payload>)
      ensures Announces(out, existing)
    {
      out := [];
      var todo := existing;
      while todo != {}
        invariant todo <= existing && Announces(out, existing - todo)
      {
        var k :| k in todo;
        assert Message(DelOp, k) !in out;
        out := out + [Message(DelOp, k)];
        todo := todo - {k};
      }
      assert existing - todo == existing;
    }

    method Rename(args: seq<bytes>) returns (a: Answer, out: seq<Payload>)
      modifies db
      ensures Effect(db.data, out, a) == RenameEffect(old(db.data), args)
    {
      if |args| != 3 { return ArityError, []; }
      var r := db.RenameKey(args[1], args[2]);
      if r.Fail? { return Refused(r.error), []; }
      return OK, [RenameMessage(args[1], args[2])];
    }

    method RenameNX(args: seq<bytes>) returns (a: Answer, out: seq<Payload>)
      modifies db
      ensures Effect(db.data, out, a) == RenameNXEffect(old(db.data), args)
    {
      if |args| != 3 { return ArityError, []; }
      if args[1] !in db.data { return Refused(NoSuchKey), []; }
      var r := db.RenameKeyNX(args[1], args[2]);
      if r == Num(1) { return Integer(1), [RenameMessage(args[1], args[2])]; }
      return Integer(0), [];
    }

    /** Runs one command and hands its payloads to the peers. */
    method Execute(c: Command) returns (a: Answer, out: seq<Payload>)
      modifies this, db
      ensures Does(old(db.data), c, Effect(db.data, out, a))
      ensures sent == old(sent) + out
    {
      match c.verb {
        case LPUSH => a, out := Push(c.args, true, false);
        case RPUSH => a, out := Push(c.args, false, false);
        case LPUSHX => a, out := Push(c.args, true, true);
        case RPUSHX => a, out := Push(c.args, false, true);
        case LPOP => a, out := Pop(c.args, true);
        case RPOP => a, out := Pop(c.args, false);
        case LSET => a, out := LSet(c.args);
        case LREM => a, out := LRem(c.args);
        case LTRIM => a, out := LTrim(c.args);
        case LINSERT => a, out := LInsert(c.args);
        case DEL => a, out := Del(c.args);
        case RENAME => a, out := Rename(c.args);
        case RENAMENX => a, out := RenameNX(c.args);
      }
      sent := sent + out;
    }
  }

  /** The receiving side: one dispatch on the operation name. */
  method ApplyPayload(db: Database, p: Payload) returns (r: Reply)
    modifies db
    ensures db.data == Apply(old(db.data), p).data
    ensures r.Fail? <==> Apply(old(db.data), p).reply.Fail?
  {
    r := Num(0);
    var n;
    match p.op {
      case SetOp => db.Store(p.key, p.value);
      case DelOp =>
        var _ := db.Del([p.key]);
        assert KeySet([p.key]) == {p.key};
      case FlushOp => db.FlushDB();
      case RenameOp => r := db.RenameKey(p.key, p.dest);
      case HSetOp => if |p.fields| != 0 { r, n := db.HSet(p.key, p.fields); }
      case HDelOp => r, n := db.HDel(p.key, p.members);
      case SAddOp => if p.members != [] { r, n := db.SAdd(p.key, p.members); }
      case SRemOp => if p.members != [] { r, n := db.SRem(p.key, p.members); }
      case ReplaceSetOp => db.ReplaceSet(p.key, p.members);
      case UnknownOp => r := Fail(BadPayload);
      case _ => r := ApplyListPayload(db, p);
    }
  }

  method ApplyListPayload(db: Database, p: Payload) returns (r: Reply)
    modifies db
    ensures Outcome(db.data, r) == ApplyList(old(db.data), p)
  {
    match p.op {
      case LPushOp => r := PushPayload(db, p, true);
      case RPushOp => r := PushPayload(db, p, false);
      case LPopOp => r := db.Pop(p.key, if p.cnt < 1 then 1 else p.cnt, true);
      case RPopOp => r := db.Pop(p.key, if p.cnt < 1 then 1 else p.cnt, false);
      case LRemOp => r := db.LRem(p.key, p.cnt, p.value);
      case LSetOp => r := db.LSet(p.key, p.cnt, p.value);
      case LTrimOp => r := TrimPayload(db, p);
      case LInsertBefore => r := InsertPayload(db, p, true);
      case LInsertAfter => r := InsertPayload(db, p, false);
      case _ => r := Num(0);
    }
  }

  method PushPayload(db: Database, p: Payload, left: bool) returns (r: Reply)
    modifies db
    ensures Outcome(db.data, r) == ApplyPush(old(db.data), p, left)
  {
    if p.members == [] { return Num(0); }
    r := db.LPush(p.key, p.members, left);
  }

  method TrimPayload(db: Database, p: Payload) returns (r: Reply)
    modifies db
    ensures Outcome(db.data, r) == ApplyTrim(old(db.data), p)
  {
    if |p.members| < 2 { return Num(0); }
    var start, stop := ParseInt(p.members[0]), ParseInt(p.members[1]);
    if start.None? { return Fail(BadPayload); }
    if stop.None? { return Fail(BadPayload); }
    r := db.LTrim(p.key, start.value, stop.value);
  }

  method InsertPayload(db: Database, p: Payload, before: bool) returns (r: Reply)
    modifies db
    ensures Outcome(db.data, r) == ApplyInsert(old(db.data), p, before)
  {
    if |p.members| < 2 { return Num(0); }
    r := db.LInsert(p.key, before, p.members[0], p.members[1]);
  }

  /** Applies payloads in order; `refused` reports whether any was refused. */
  method ApplyPayloads(db: Database, ps: seq<Payload>) returns (refused: bool)
    modifies db
    ensures Applied(old(db.data), ps).Some? ==> !refused && Some(db.data) == Applied(old(db.data), ps)
  {
    refused := false;
    for i := 0 to |ps|
      invariant Applied(old(db.data), ps).Some? ==> !refused && Applied(db.data, ps[i..]) == Applied(old(db.data), ps)
    {
      assert ps[i..][1..] == ps[i + 1..];
      var r := ApplyPayload(db, ps[i]);
      if r.Fail? { refused := true; }
    }
  }

  /** Two nodes side by side: as long as the follower applies what the leader sends, no payload
      is ever refused and the two hold the same data after every command. */
  method Follow(leader: Node, follower: Database, commands: seq<Command>) returns (refused: bool)
    requires leader.db != follower && leader.db.data == follower.data
    modifies leader, leader.db, follower
    ensures !refused && leader.db.data == follower.data
  {
    refused := false;
    for i := 0 to |commands|
      invariant !refused && leader.db.data == follower.data
    {
      ghost var before := leader.db.data;
      var a, out := leader.Execute(commands[i]);
      CommandSimulated(before, commands[i], Effect(leader.db.data, out, a));
      var bad := ApplyPayloads(follower, out);
      refused := refused || bad;
    }
  }
}
