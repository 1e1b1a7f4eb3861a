/** Set and hash commands and the payloads they send. They are reproduced on a replica except in
    one case: a removal that meets an empty collection deletes the key and does not say so. */
module SetReplication {
  import opened Bytes
  import opened Lists
  import opened Keyspace
  import opened Replication

  /** `Store` is the end of SUNIONSTORE, SINTERSTORE and SDIFFSTORE, once the members are known. */
  datatype Order =
    | SAdd(args: seq<bytes>)
    | SRem(args: seq<bytes>)
    | HSet(args: seq<bytes>)
    | HDel(args: seq<bytes>)
    | Store(dest: bytes, members: items)

  function SAddEffect(d: Data, args: seq<bytes>): Effect
  {
    if |args| < 3 then NoEffect(d, ArityError)
    else
      var o := SetAdd(d, args[1], args[2..]);
      if o.reply.Fail? then NoEffect(o.data, Refused(o.reply.error))
      else
        var n := Cardinal(o.data, args[1]) - Cardinal(d, args[1]);
        Effect(o.data, if n > 0 then [Message(SAddOp, args[1]).(members := args[2..])] else [], Integer(n))
  }

  function SRemEffect(d: Data, args: seq<bytes>): Effect
  {
    if |args| < 3 then NoEffect(d, ArityError)
    else
      var o := SetRem(d, args[1], args[2..]);
      if o.reply.Fail? then NoEffect(o.data, Refused(o.reply.error))
      else
        var n := Cardinal(d, args[1]) - Cardinal(o.data, args[1]);
        Effect(o.data, if n > 0 then [Message(SRemOp, args[1]).(members := args[2..])] else [], Integer(n))
  }

  /** Field and value alternate; a later value of the same field wins. */
  function Pairs(args: seq<bytes>): map<bytes, bytes>
    requires |args| % 2 == 0
  {
    if args == [] then map[] else Pairs(args[..|args| - 2])[args[|args| - 2] := args[|args| - 1]]
  }

  function HSetEffect(d: Data, args: seq<bytes>): Effect
  {
    if |args| < 4 || |args| % 2 != 0 then NoEffect(d, ArityError)
    else
      var o := HashSet(d, args[1], Pairs(args[2..]));
      if o.reply.Fail? then NoEffect(o.data, Refused(o.reply.error))
      else
        Effect(o.data, [Message(HSetOp, args[1]).(fields := Pairs(args[2..]))],
               Integer(Cardinal(o.data, args[1]) - Cardinal(d, args[1])))
  }

  function HDelEffect(d: Data, args: seq<bytes>): Effect
  {
    if |args| < 3 then NoEffect(d, ArityError)
    else
      var o := HashDel(d, args[1], args[2..]);
      if o.reply.Fail? then NoEffect(o.data, Refused(o.reply.error))
      else
        var n := Cardinal(d, args[1]) - Cardinal(o.data, args[1]);
        Effect(o.data, if n > 0 then [Message(HDelOp, args[1]).(members := args[2..])] else [], Integer(n))
  }

  function EffectOf(d: Data, c: Order): Effect
  {
    match c
    case SAdd(args) => SAddEffect(d, args)
    case SRem(args) => SRemEffect(d, args)
    case HSet(args) => HSetEffect(d, args)
    case HDel(args) => HDelEffect(d, args)
    case Store(dest, members) =>
      Effect(d[dest := Set(KeySet(members))], [Message(ReplaceSetOp, dest).(members := members)], Integer(|members|))
  }

  /** A removal that finds the collection empty already: the key goes, and the count is 0. */
  predicate MeetsEmpty(d: Data, c: Order)
  {
    match c
    case SRem(args) => |args| >= 3 && args[1] in d && d[args[1]].Set? && |d[args[1]].members| == 0
    case HDel(args) => |args| >= 3 && args[1] in d && d[args[1]].Hash? && |d[args[1]].fields| == 0
    case _ => false
  }

  /** Sets of equal size of which one holds the other are equal. */
  lemma SameSize(s: set<bytes>, t: set<bytes>)
    requires s <= t && |s| >= |t|
    ensures s == t
  {
    if s != t {
      var x :| x in t && x !in s;
      assert |t - {x}| == |t| - 1;
      Within(s, t - {x});
    }
  }

  lemma {:induction false} Within(s: set<bytes>, t: set<bytes>)
    requires s <= t
    ensures |s| <= |t|
    decreases |s|
  {
    if s != {} {
      var x :| x in s;
      Within(s - {x}, t - {x});
    }
  }

  lemma SAddMirrored(d: Data, args: seq<bytes>)
    ensures Mirrored(d, SAddEffect(d, args))
  {
    var e := SAddEffect(d, args);
    if e.sent != [] {
      MirroredBy(d, e, e.sent[0]);
    } else if |args| >= 3 && !SetAdd(d, args[1], args[2..]).reply.Fail? {
      SAddSilent(d, args[1], args[2..]);
    }
  }

  /** An SADD that adds nothing leaves the set as it was. */
  lemma SAddSilent(d: Data, key: bytes, members: items)
    requires members != [] && !SetAdd(d, key, members).reply.Fail?
    ensures Cardinal(SetAdd(d, key, members).data, key) <= Cardinal(d, key) ==> SetAdd(d, key, members).data == d
  {
    var s := if key in d then d[key].members else {};
    var t := s + KeySet(members);
    assert members[0] in t;
    if |t| <= |s| {
      SameSize(s, t);
      assert d[key := d[key]] == d;
    }
  }

  lemma SRemMirroredIff(d: Data, args: seq<bytes>)
    ensures Mirrored(d, SRemEffect(d, args)) <==> !MeetsEmpty(d, SRem(args))
  {
    var e := SRemEffect(d, args);
    if e.sent != [] {
      MirroredBy(d, e, e.sent[0]);
    } else if |args| >= 3 && !SetRem(d, args[1], args[2..]).reply.Fail? {
      SRemSilent(d, args[1], args[2..]);
    }
  }

  /** An SREM that removes nothing leaves the data alone exactly when the set is not empty. */
  lemma SRemSilent(d: Data, key: bytes, members: items)
    requires !SetRem(d, key, members).reply.Fail?
    requires Cardinal(d, key) <= Cardinal(SetRem(d, key, members).data, key)
    ensures SetRem(d, key, members).data == d <==> !(key in d && |d[key].members| == 0)
  {
    if key in d {
      var s := d[key].members - KeySet(members);
      if |d[key].members| == 0 {
        assert s == {};
      } else {
        SameSize(s, d[key].members);
        assert d[key := d[key]] == d;
      }
    }
  }

  lemma HSetMirrored(d: Data, args: seq<bytes>)
    ensures Mirrored(d, HSetEffect(d, args))
  {
    var e := HSetEffect(d, args);
    if e.sent != [] { MirroredBy(d, e, e.sent[0]); }
  }

  lemma HDelMirroredIff(d: Data, args: seq<bytes>)
    ensures Mirrored(d, HDelEffect(d, args)) <==> !MeetsEmpty(d, HDel(args))
  {
    if |args| >= 3 {
      var o := HashDel(d, args[1], args[2..]);
      if o.reply.Fail? {
        assert HDelEffect(d, args).sent == [];
      } else if Cardinal(d, args[1]) <= Cardinal(o.data, args[1]) {
        HDelSilent(d, args[1], args[2..]);
        hide HashDel;
        assert HDelEffect(d, args).sent == [];
      } else {
        HDelSays(d, args);
      }
    }
  }

  lemma HDelSays(d: Data, args: seq<bytes>)
    requires |args| >= 3 && !HashDel(d, args[1], args[2..]).reply.Fail?
    requires Cardinal(d, args[1]) > Cardinal(HashDel(d, args[1], args[2..]).data, args[1])
    ensures Mirrored(d, HDelEffect(d, args)) && !MeetsEmpty(d, HDel(args))
  {
    var e := HDelEffect(d, args);
    assert Apply(d, e.sent[0]).data == e.data by { hide HashDel; }
    MirroredBy(d, e, e.sent[0]);
  }

  lemma HDelSilent(d: Data, key: bytes, names: items)
    requires !HashDel(d, key, names).reply.Fail?
    requires Cardinal(d, key) <= Cardinal(HashDel(d, key, names).data, key)
    ensures HashDel(d, key, names).data == d <==> !(key in d && |d[key].fields| == 0)
  {
    if key in d {
      var was, h := d[key].fields, d[key].fields - KeySet(names);
      assert h.Keys <= was.Keys && |h.Keys| == |h| && |was.Keys| == |was|;
      if |was| == 0 {
        assert h == map[] by { assert was == map[]; }
      } else {
        SameSize(h.Keys, was.Keys);
        assert h == was;
        assert d[key := d[key]] == d;
      }
    }
  }

  /** One command is reproduced by what it sends if and only if it is not a removal that meets an
      empty collection. */
  lemma OrderMirroredIff(d: Data, c: Order)
    ensures Mirrored(d, EffectOf(d, c)) <==> !MeetsEmpty(d, c)
  {
    match c
    case SAdd(args) => SAddMirrored(d, args);
    case SRem(args) => SRemMirroredIff(d, args);
    case HSet(args) => HSetMirrored(d, args);
    case HDel(args) => HDelMirroredIff(d, args);
    case Store(dest, members) =>
      MirroredBy(d, EffectOf(d, c), Message(ReplaceSetOp, dest).(members := members));
  }

  // ----- runs of all modelled commands ------------------------------------------------------

  datatype Any = ListOrKey(c: Command) | SetOrHash(o: Order)

  datatype Turn = Turn(command: Any, effect: Effect)

  ghost predicate DoesAny(d: Data, c: Any, e: Effect)
  {
    match c
    case ListOrKey(c) => Does(d, c, e)
    case SetOrHash(o) => e == EffectOf(d, o)
  }

  predicate Loses(d: Data, c: Any) { c.SetOrHash? && MeetsEmpty(d, c.o) }

  lemma AnyMirroredIff(d: Data, c: Any, e: Effect)
    requires DoesAny(d, c, e)
    ensures Mirrored(d, e) <==> !Loses(d, c)
  {
    match c
    case ListOrKey(c) => CommandSimulated(d, c, e);
    case SetOrHash(o) => OrderMirroredIff(d, o);
  }

  ghost predicate Story(d: Data, run: seq<Turn>)
    decreases |run|
  {
    run == [] || (DoesAny(d, run[0].command, run[0].effect) && Story(run[0].effect.data, run[1..]))
  }

  /** No command of the run is lost on the replica. */
  ghost predicate NothingLost(d: Data, run: seq<Turn>)
    decreases |run|
  {
    run == [] || (!Loses(d, run[0].command) && NothingLost(run[0].effect.data, run[1..]))
  }

  /** A replica that applies each command's payloads is equal after every one of them. */
  ghost predicate Tracks(d: Data, run: seq<Turn>)
    decreases |run|
  {
    run == [] || (Applied(d, run[0].effect.sent) == Some(run[0].effect.data) && Tracks(run[0].effect.data, run[1..]))
  }

  /** Over every run of list, key, set and hash commands: the replica is equal after each command if
      and only if no removal met an empty collection. */
  lemma {:induction false} RunMirroredIff(d: Data, run: seq<Turn>)
    requires Story(d, run)
    ensures Tracks(d, run) <==> NothingLost(d, run)
    decreases |run|
  {
    if run != [] {
      AnyMirroredIff(d, run[0].command, run[0].effect);
      RunMirroredIff(run[0].effect.data, run[1..]);
    }
  }

  /** A run that loses one: an intersection that comes to nothing leaves an empty set, and removing
      anything from it deletes the key on this node only. */
  lemma EmptySetLost(key: bytes, m: bytes)
    ensures var d := EffectOf(map[], Store(key, [])).data;
      var e := EffectOf(d, SRem([[], key, m]));
      key in d && key !in e.data && e.sent == [] && e.answer == Integer(0)
  {
    var d := EffectOf(map[], Store(key, [])).data;
    assert [[], key, m][1] == key && [[], key, m][2..] == [m];
    assert KeySet([]) == {};
    assert {} - KeySet([m]) == {};
  }

  // ----- the handlers -----------------------------------------------------------------------

  method CmdSAdd(node: Node, args: seq<bytes>) returns (a: Answer, out: seq<Payload>)
    modifies node.db
    ensures Effect(node.db.data, out, a) == SAddEffect(old(node.db.data), args)
  {
    if |args| < 3 { return ArityError, []; }
    var r, n := node.db.SAdd(args[1], args[2..]);
    if r.Fail? { return Refused(r.error), []; }
    a, out := Integer(n), if n > 0 then [Message(SAddOp, args[1]).(members := args[2..])] else [];
  }

  method CmdSRem(node: Node, args: seq<bytes>) returns (a: Answer, out: seq<Payload>)
    modifies node.db
    ensures Effect(node.db.data, out, a) == SRemEffect(old(node.db.data), args)
  {
    if |args| < 3 { return ArityError, []; }
    var r, n := node.db.SRem(args[1], args[2..]);
    if r.Fail? { return Refused(r.error), []; }
    a, out := Integer(n), if n > 0 then [Message(SRemOp, args[1]).(members := args[2..])] else [];
  }

  method CmdHDel(node: Node, args: seq<bytes>) returns (a: Answer, out: seq<Payload>)
    modifies node.db
    ensures Effect(node.db.data, out, a) == HDelEffect(old(node.db.data), args)
  {
    if |args| < 3 { return ArityError, []; }
    var r, n := node.db.HDel(args[1], args[2..]);
    if r.Fail? { return Refused(r.error), []; }
    a, out := Integer(n), if n > 0 then [Message(HDelOp, args[1]).(members := args[2..])] else [];
  }

  method ReadPairs(rest: seq<bytes>) returns (pairs: map<bytes, bytes>)
    requires |rest| % 2 == 0
    ensures pairs == Pairs(rest)
  {
    pairs := map[];
    var i := 0;
    while i < |rest|
      invariant 0 <= i <= |rest| && i % 2 == 0 && pairs == Pairs(rest[..i])
    {
      assert rest[..i + 2][..i] == rest[..i];
      pairs := pairs[rest[i] := rest[i + 1]];
      i := i + 2;
    }
    assert rest[..|rest|] == rest;
  }

  method CmdHSet(node: Node, args: seq<bytes>) returns (a: Answer, out: seq<Payload>)
    modifies node.db
    ensures Effect(node.db.data, out, a) == HSetEffect(old(node.db.data), args)
  {
    hide Pairs;
    if |args| < 4 || (|args| - 2) % 2 != 0 { return ArityError, []; }
    var pairs := ReadPairs(args[2..]);
    var r, n := node.db.HSet(args[1], pairs);
    if r.Fail? { return Refused(r.error), []; }
    a, out := Integer(n), [Message(HSetOp, args[1]).(fields := pairs)];
  }

  method CmdStore(node: Node, dest: bytes, members: items) returns (a: Answer, out: seq<Payload>)
    modifies node.db
    ensures Effect(node.db.data, out, a) == EffectOf(old(node.db.data), Store(dest, members))
  {
    node.db.ReplaceSet(dest, members);
    a, out := Integer(|members|), [Message(ReplaceSetOp, dest).(members := members)];
  }
}
