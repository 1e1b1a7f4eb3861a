/** A node joining a running one: shards are copied one by one while the source goes on
    writing, and the writes buffered meanwhile are replayed on top, although many of them are
    already in the copy. */
module Bootstrap {
  import opened Bytes
  import opened Lists
  import opened Keyspace
  import opened Snapshot
  import opened Replication

  // ----- overwriting operations as writes to cells ----------------------------------------

  /** The smallest things a write replaces. */
  datatype Cell =
    | Text(k: bytes)
    | Items(k: bytes)
    | Field(k: bytes, f: bytes)
    | NoFields(k: bytes)
    | Member(k: bytes, m: bytes)
    | NoMembers(k: bytes)

  datatype Content = Absent | Present | Holds(b: bytes) | Elements(l: items)

  /** `NoFields` and `NoMembers` say that a key holds an empty hash or set: set algebra that comes
      to nothing stores an empty set. */
  function Read(d: Data, c: Cell): Content
  {
    if c.k !in d then Absent
    else
      match (c, d[c.k])
      case (Text(_), Str(b)) => Holds(b)
      case (Items(_), List(l)) => Elements(l)
      case (Field(_, f), Hash(h)) => if f in h then Holds(h[f]) else Absent
      case (NoFields(_), Hash(h)) => if |h| == 0 then Present else Absent
      case (Member(_, m), Set(s)) => if m in s then Present else Absent
      case (NoMembers(_), Set(s)) => if |s| == 0 then Present else Absent
      case _ => Absent
  }

  /** The operations that overwrite rather than update. */
  predicate Overwrites(p: Payload)
  {
    p.op in {SetOp, DelOp, FlushOp, HSetOp, HDelOp, SAddOp, SRemOp, ReplaceSetOp}
  }

  /** What an operation puts into a cell, whatever was there; `None` when it leaves it alone. */
  function Writes(p: Payload, c: Cell): Option<Content>
  {
    if p.op == FlushOp then Some(Absent)
    else if c.k != p.key then None
    else
      match p.op
      case SetOp => Some(if c.Text? then Holds(p.value) else Absent)
      case DelOp => Some(Absent)
      case HSetOp => HSetWrites(p.fields, c)
      case HDelOp => HDelWrites(p.members, c)
      case SAddOp => if p.members == [] then None else SetWrites(p.members, Present, c)
      case SRemOp => if p.members == [] then None else SetWrites(p.members, Absent, c)
      case ReplaceSetOp => Some(Read(map[p.key := Set(KeySet(p.members))], c))
      case _ => None
  }

  function HSetWrites(pairs: map<bytes, bytes>, c: Cell): Option<Content>
  {
    match c
    case Field(_, f) => if f in pairs then Some(Holds(pairs[f])) else None
    case NoFields(_) => if |pairs| == 0 then None else Some(Absent)
    case _ => None
  }

  function HDelWrites(names: items, c: Cell): Option<Content>
  {
    match c
    case Field(_, f) => if f in KeySet(names) then Some(Absent) else None
    case NoFields(_) => Some(Absent)
    case _ => None
  }

  function SetWrites(names: items, x: Content, c: Cell): Option<Content>
  {
    match c
    case Member(_, m) => if m in KeySet(names) then Some(x) else None
    case NoMembers(_) => Some(Absent)
    case _ => None
  }

  ghost predicate SameCells(d: Data, e: Data) { forall c :: Read(d, c) == Read(e, c) }

  /** The cells of a key say whether it is there. */
  lemma Occupied(d: Data, k: bytes) returns (c: Cell)
    requires k in d
    ensures c.k == k && Read(d, c) != Absent
  {
    match d[k]
    case Str(_) => c := Text(k);
    case List(_) => c := Items(k);
    case Hash(h) =>
      if |h| == 0 { return NoFields(k); }
      var f :| f in h;
      c := Field(k, f);
    case Set(s) =>
      if |s| == 0 { return NoMembers(k); }
      var m :| m in s;
      c := Member(k, m);
  }

  lemma SameCellsSameKey(d: Data, e: Data, k: bytes)
    requires SameCells(d, e) && k in d
    ensures k in e && d[k] == e[k]
  {
    var c := Occupied(d, k);
    assert Read(e, c) != Absent;
    match d[k]
    case Str(_) => assert Read(e, Text(k)) == Read(d, Text(k));
    case List(_) => assert Read(e, Items(k)) == Read(d, Items(k));
    case Hash(h) => SameFields(h, e[k].fields, d, e, k);
    case Set(s) => SameMembers(s, e[k].members, d, e, k);
  }

  lemma SameFields(h: map<bytes, bytes>, g: map<bytes, bytes>, d: Data, e: Data, k: bytes)
    requires SameCells(d, e) && k in d && k in e && d[k] == Hash(h) && e[k] == Hash(g)
    ensures h == g
  {
    forall f ensures f in h <==> f in g { assert Read(d, Field(k, f)) == Read(e, Field(k, f)); }
    forall f | f in h ensures h[f] == g[f] { assert Read(d, Field(k, f)) == Read(e, Field(k, f)); }
  }

  lemma SameMembers(s: set<bytes>, t: set<bytes>, d: Data, e: Data, k: bytes)
    requires SameCells(d, e) && k in d && k in e && d[k] == Set(s) && e[k] == Set(t)
    ensures s == t
  {
    forall m ensures m in s <==> m in t { assert Read(d, Member(k, m)) == Read(e, Member(k, m)); }
  }

  /** Data is determined by its cells. */
  lemma SameCellsSameData(d: Data, e: Data)
    requires SameCells(d, e)
    ensures d == e
  {
    forall k ensures k in d <==> k in e {
      if k in d { SameCellsSameKey(d, e, k); }
      if k in e { SameCellsSameKey(e, d, k); }
    }
    forall k | k in d ensures d[k] == e[k] { SameCellsSameKey(d, e, k); }
  }

  function Overlaid(w: Option<Content>, below: Content): Content { if w.Some? then w.value else below }

  /** What the operations make of one key's cells, where they do not fail. */
  lemma HashSetCells(d: Data, k: bytes, pairs: map<bytes, bytes>, c: Cell)
    requires !HashSet(d, k, pairs).reply.Fail? && c.k == k
    ensures Read(HashSet(d, k, pairs).data, c) == Overlaid(HSetWrites(pairs, c), Read(d, c))
  {
    if |pairs| != 0 && c.NoFields? {
      var f :| f in pairs;
      assert f in (if k in d then d[k].fields else map[]) + pairs;
    }
  }

  lemma HashDelCells(d: Data, k: bytes, names: items, c: Cell)
    requires !HashDel(d, k, names).reply.Fail? && c.k == k
    ensures Read(HashDel(d, k, names).data, c) == Overlaid(HDelWrites(names, c), Read(d, c))
  {
    if k in d {
      var h := d[k].fields - KeySet(names);
      assert |h| == 0 ==> forall f :: f !in h;
      assert c.Field? ==> (c.f in h <==> c.f in d[k].fields && c.f !in KeySet(names));
    }
  }

  lemma SetAddCells(d: Data, k: bytes, members: items, c: Cell)
    requires !SetAdd(d, k, members).reply.Fail? && members != [] && c.k == k
    ensures Read(SetAdd(d, k, members).data, c) == Overlaid(SetWrites(members, Present, c), Read(d, c))
  {
    assert members[0] in KeySet(members);
    if c.NoMembers? {
      assert members[0] in (if k in d then d[k].members else {}) + KeySet(members);
    }
  }

  lemma SetRemCells(d: Data, k: bytes, members: items, c: Cell)
    requires !SetRem(d, k, members).reply.Fail? && c.k == k
    ensures Read(SetRem(d, k, members).data, c) == Overlaid(SetWrites(members, Absent, c), Read(d, c))
  {
    if k in d && c.Member? {
      var s := d[k].members - KeySet(members);
      assert |s| == 0 ==> c.m !in s;
    }
  }

  /** A change of one key leaves the cells of the others. */
  lemma OtherKeys(d: Data, k: bytes, v: Value, c: Cell)
    requires c.k != k
    ensures Read(d[k := v], c) == Read(d, c) && Read(d - {k}, c) == Read(d, c)
  {
  }

  lemma HashSetOthers(d: Data, k: bytes, pairs: map<bytes, bytes>, c: Cell)
    requires c.k != k
    ensures Read(HashSet(d, k, pairs).data, c) == Read(d, c)
  {
  }

  lemma HashDelOthers(d: Data, k: bytes, names: items, c: Cell)
    requires c.k != k
    ensures Read(HashDel(d, k, names).data, c) == Read(d, c)
  {
  }

  lemma SetAddOthers(d: Data, k: bytes, names: items, c: Cell)
    requires c.k != k
    ensures Read(SetAdd(d, k, names).data, c) == Read(d, c)
  {
  }

  lemma SetRemOthers(d: Data, k: bytes, names: items, c: Cell)
    requires c.k != k
    ensures Read(SetRem(d, k, names).data, c) == Read(d, c)
  {
  }

  /** An accepted overwriting operation is exactly its writes. */
  lemma AppliedCells(d: Data, p: Payload, c: Cell)
    requires Overwrites(p) && !Apply(d, p).reply.Fail?
    ensures Read(Apply(d, p).data, c) == Overlaid(Writes(p, c), Read(d, c))
  {
    hide HashSet, HashDel, SetAdd, SetRem, HSetWrites, HDelWrites, SetWrites, KeySet;
    if p.op == FlushOp {
    } else if c.k != p.key {
      match p.op
      case HSetOp => HashSetOthers(d, p.key, p.fields, c);
      case HDelOp => HashDelOthers(d, p.key, p.members, c);
      case SAddOp => SetAddOthers(d, p.key, p.members, c);
      case SRemOp => SetRemOthers(d, p.key, p.members, c);
      case ReplaceSetOp => OtherKeys(d, p.key, Set(KeySet(p.members)), c);
      case _ => OtherKeys(d, p.key, Str(p.value), c);
    } else {
      match p.op
      case HSetOp => HashSetCells(d, p.key, p.fields, c);
      case HDelOp => HashDelCells(d, p.key, p.members, c);
      case SAddOp => if p.members != [] { SetAddCells(d, p.key, p.members, c); } else { NoneAdded(d, p.key); }
      case SRemOp => if p.members != [] { SetRemCells(d, p.key, p.members, c); }
      case _ =>
    }
  }

  lemma NoneAdded(d: Data, k: bytes)
    ensures SetAdd(d, k, []).data == d
  {
  }

  // ----- the protocol ---------------------------------------------------------------------

  /** `next` is the next shard to copy; `buffer` holds the source's writes since the link came
      up that the joiner has not replayed; `failed` is set once a replayed write is refused. */
  datatype State = State(source: Data, next: nat, joiner: Data, buffer: seq<Payload>, failed: bool)

  datatype Action = Write(p: Payload) | Copy | Drain

  function Initial(d: Data): State { State(d, 0, map[], [], false) }

  /** What the protocol allows: any write the source accepts, shards in order, and replay once
      the last one is in. */
  predicate Possible(s: State, a: Action)
  {
    match a
    case Write(p) => !Apply(s.source, p).reply.Fail?
    case Copy => s.next < NUM_SHARDS
    case Drain => s.next == NUM_SHARDS && s.buffer != [] && !s.failed
  }

  predicate Enabled(s: State, a: Action)
  {
    Possible(s, a) && (a.Write? ==> Overwrites(a.p))
  }

  function Do(s: State, shardOf: bytes -> nat, a: Action): State
    requires Possible(s, a)
  {
    match a
    case Write(p) => s.(source := Apply(s.source, p).data, buffer := s.buffer + [p])
    case Copy => s.(joiner := s.joiner + Part(s.source, shardOf, s.next), next := s.next + 1)
    case Drain =>
      var o := Apply(s.joiner, s.buffer[0]);
      if o.reply.Fail? then s.(buffer := s.buffer[1..], failed := true)
      else s.(buffer := s.buffer[1..], joiner := o.data)
  }

  function After(d: Data, shardOf: bytes -> nat, run: seq<Action>): Option<State>
  {
    if run == [] then Some(Initial(d))
    else
      var n := |run| - 1;
      var s := After(d, shardOf, run[..n]);
      if s.None? || !Enabled(s.value, run[n]) then None else Some(Do(s.value, shardOf, run[n]))
  }

  /** The last pending write to a cell. */
  function Pending(ps: seq<Payload>, c: Cell): Option<Content>
  {
    if ps == [] then None
    else
      var n := |ps| - 1;
      if Writes(ps[n], c).Some? then Writes(ps[n], c) else Pending(ps[..n], c)
  }

  lemma PendingSnoc(ps: seq<Payload>, p: Payload, c: Cell)
    ensures Pending(ps + [p], c) == if Writes(p, c).Some? then Writes(p, c) else Pending(ps, c)
  {
    assert (ps + [p])[..|ps|] == ps;
  }

  lemma {:induction false} PendingCons(ps: seq<Payload>, c: Cell)
    requires ps != []
    ensures Pending(ps, c) == if Pending(ps[1..], c).Some? then Pending(ps[1..], c) else Writes(ps[0], c)
  {
    var n := |ps| - 1;
    if n > 0 {
      PendingCons(ps[..n], c);
      assert ps[1..][..n - 1] == ps[..n][1..];
    } else {
      assert ps[..n] == [];
    }
  }

  /** What is pending has happened at the source. */
  ghost predicate PendingHappened(s: State)
  {
    forall c :: Pending(s.buffer, c).Some? ==> Read(s.source, c) == Pending(s.buffer, c).value
  }

  /** Of the copied shards the joiner has everything, once what is pending is laid on top. */
  ghost predicate Covered(s: State, shardOf: bytes -> nat)
  {
    forall c: Cell :: shardOf(c.k) < s.next ==> Overlaid(Pending(s.buffer, c), Read(s.joiner, c)) == Read(s.source, c)
  }

  ghost predicate Uncopied(s: State, shardOf: bytes -> nat)
  {
    s.next < NUM_SHARDS ==> forall k :: k in s.joiner ==> shardOf(k) < s.next
  }

  ghost predicate Inv(s: State, shardOf: bytes -> nat)
  {
    && s.next <= NUM_SHARDS
    && (forall p :: p in s.buffer ==> Overwrites(p))
    && PendingHappened(s)
    && Uncopied(s, shardOf)
    && (!s.failed ==> Covered(s, shardOf))
  }

  lemma WriteInv(s: State, shardOf: bytes -> nat, p: Payload)
    requires Inv(s, shardOf) && Enabled(s, Write(p))
    ensures Inv(Do(s, shardOf, Write(p)), shardOf)
  {
    var t := Do(s, shardOf, Write(p));
    forall c ensures Read(t.source, c) == Overlaid(Writes(p, c), Read(s.source, c))
      ensures Pending(t.buffer, c) == if Writes(p, c).Some? then Writes(p, c) else Pending(s.buffer, c)
    {
      AppliedCells(s.source, p, c);
      PendingSnoc(s.buffer, p, c);
    }
  }

  lemma CopyCells(s: State, shardOf: bytes -> nat, c: Cell)
    requires Enabled(s, Copy) && Uncopied(s, shardOf)
    ensures Read(Do(s, shardOf, Copy).joiner, c) ==
              if shardOf(c.k) == s.next then Read(s.source, c) else Read(s.joiner, c)
  {
  }

  lemma CopyInv(s: State, shardOf: bytes -> nat)
    requires Inv(s, shardOf) && Enabled(s, Copy)
    ensures Inv(Do(s, shardOf, Copy), shardOf)
  {
    forall c ensures Read(Do(s, shardOf, Copy).joiner, c) ==
                       if shardOf(c.k) == s.next then Read(s.source, c) else Read(s.joiner, c)
    {
      CopyCells(s, shardOf, c);
    }
  }

  lemma DrainInv(s: State, shardOf: bytes -> nat)
    requires Inv(s, shardOf) && Enabled(s, Drain)
    ensures Inv(Do(s, shardOf, Drain), shardOf)
  {
    var p, t := s.buffer[0], Do(s, shardOf, Drain);
    forall c ensures Pending(s.buffer, c) ==
                       if Pending(t.buffer, c).Some? then Pending(t.buffer, c) else Writes(p, c)
      ensures !t.failed ==> Read(t.joiner, c) == Overlaid(Writes(p, c), Read(s.joiner, c))
    {
      PendingCons(s.buffer, c);
      if !t.failed { AppliedCells(s.joiner, p, c); }
    }
  }

  lemma {:induction false} RunInv(d: Data, shardOf: bytes -> nat, run: seq<Action>)
    requires After(d, shardOf, run).Some?
    ensures Inv(After(d, shardOf, run).value, shardOf)
  {
    if run != [] {
      var n := |run| - 1;
      RunInv(d, shardOf, run[..n]);
      var s := After(d, shardOf, run[..n]).value;
      match run[n]
      case Write(p) => WriteInv(s, shardOf, p);
      case Copy => CopyInv(s, shardOf);
      case Drain => DrainInv(s, shardOf);
    }
  }

  /** Convergence: once every shard was copied, at whatever moments of the source's run, and the
      buffer has run empty without a refusal, the joiner holds exactly the source's data. */
  lemma Converges(d: Data, shardOf: bytes -> nat, run: seq<Action>)
    requires After(d, shardOf, run).Some?
    requires Routed(shardOf)
    ensures var s := After(d, shardOf, run).value;
      s.next == NUM_SHARDS && s.buffer == [] && !s.failed ==> s.joiner == s.source
  {
    RunInv(d, shardOf, run);
    var s := After(d, shardOf, run).value;
    if s.next == NUM_SHARDS && s.buffer == [] && !s.failed {
      SameCellsSameData(s.joiner, s.source);
    }
  }

  /** Seen from the moment the last shard is in: replaying everything buffered, however much of
      it the copy already contains, gives the source's data or is refused. */
  lemma {:induction false} ReplayReachesSource(s: State, shardOf: bytes -> nat)
    requires Inv(s, shardOf) && s.next == NUM_SHARDS && !s.failed
    requires Routed(shardOf)
    ensures Applied(s.joiner, s.buffer) in {None, Some(s.source)}
    decreases |s.buffer|
  {
    if s.buffer == [] {
      SameCellsSameData(s.joiner, s.source);
    } else {
      var t := Do(s, shardOf, Drain);
      DrainInv(s, shardOf);
      if !t.failed { ReplayReachesSource(t, shardOf); }
    }
  }

  // ----- nothing is refused while keys keep their type ------------------------------------

  function KindOf(v: Value): Kind
  {
    match v
    case Str(_) => StringKind
    case Hash(_) => HashKind
    case List(_) => ListKind
    case Set(_) => SetKind
  }

  ghost predicate Typed(d: Data, kinds: bytes -> Kind) { forall k :: k in d ==> KindOf(d[k]) == kinds(k) }

  predicate Fits(p: Payload, kinds: bytes -> Kind)
  {
    match p.op
    case SetOp => kinds(p.key) == StringKind
    case HSetOp => kinds(p.key) == HashKind
    case HDelOp => kinds(p.key) == HashKind
    case SAddOp => kinds(p.key) == SetKind
    case SRemOp => kinds(p.key) == SetKind
    case ReplaceSetOp => kinds(p.key) == SetKind
    case _ => p.op == DelOp || p.op == FlushOp
  }

  lemma HashSetTyped(d: Data, k: bytes, pairs: map<bytes, bytes>, kinds: bytes -> Kind)
    requires Typed(d, kinds) && kinds(k) == HashKind
    ensures !HashSet(d, k, pairs).reply.Fail? && Typed(HashSet(d, k, pairs).data, kinds)
  {
  }

  lemma HashDelTyped(d: Data, k: bytes, fields: seq<bytes>, kinds: bytes -> Kind)
    requires Typed(d, kinds) && kinds(k) == HashKind
    ensures !HashDel(d, k, fields).reply.Fail? && Typed(HashDel(d, k, fields).data, kinds)
  {
  }

  lemma SetAddTyped(d: Data, k: bytes, members: items, kinds: bytes -> Kind)
    requires Typed(d, kinds) && kinds(k) == SetKind
    ensures !SetAdd(d, k, members).reply.Fail? && Typed(SetAdd(d, k, members).data, kinds)
  {
  }

  lemma SetRemTyped(d: Data, k: bytes, members: items, kinds: bytes -> Kind)
    requires Typed(d, kinds) && kinds(k) == SetKind
    ensures !SetRem(d, k, members).reply.Fail? && Typed(SetRem(d, k, members).data, kinds)
  {
  }

  lemma FitsAccepted(d: Data, p: Payload, kinds: bytes -> Kind)
    requires Typed(d, kinds) && Fits(p, kinds)
    ensures !Apply(d, p).reply.Fail? && Typed(Apply(d, p).data, kinds)
  {
    match p.op
    case HSetOp => HashSetTyped(d, p.key, p.fields, kinds);
    case HDelOp => HashDelTyped(d, p.key, p.members, kinds);
    case SAddOp => SetAddTyped(d, p.key, p.members, kinds);
    case SRemOp => SetRemTyped(d, p.key, p.members, kinds);
    case _ =>
  }

  /** If every key keeps one type throughout, no replayed write is refused. */
  lemma {:induction false} TypedNeverFails(d: Data, shardOf: bytes -> nat, run: seq<Action>, kinds: bytes -> Kind)
    requires Typed(d, kinds) && After(d, shardOf, run).Some?
    requires forall a :: a in run && a.Write? ==> Fits(a.p, kinds)
    ensures var s := After(d, shardOf, run).value;
      && !s.failed && Typed(s.source, kinds) && Typed(s.joiner, kinds)
      && forall p :: p in s.buffer ==> Fits(p, kinds)
  {
    if run != [] {
      var n := |run| - 1;
      TypedNeverFails(d, shardOf, run[..n], kinds);
      var s := After(d, shardOf, run[..n]).value;
      match run[n]
      case Write(p) => FitsAccepted(s.source, p, kinds);
      case Copy =>
      case Drain => FitsAccepted(s.joiner, s.buffer[0], kinds);
    }
  }

  /** The property the joiner's design is for, end to end. */
  lemma TypedConverges(d: Data, shardOf: bytes -> nat, run: seq<Action>, kinds: bytes -> Kind)
    requires Typed(d, kinds) && After(d, shardOf, run).Some?
    requires forall a :: a in run && a.Write? ==> Fits(a.p, kinds)
    requires Routed(shardOf)
    ensures var s := After(d, shardOf, run).value;
      s.next == NUM_SHARDS ==> Applied(s.joiner, s.buffer) == Some(s.source)
  {
    RunInv(d, shardOf, run);
    TypedNeverFails(d, shardOf, run, kinds);
    var s := After(d, shardOf, run).value;
    if s.next == NUM_SHARDS {
      ReplayReachesSource(s, shardOf);
      TypedAccepted(s.joiner, s.buffer, kinds);
    }
  }

  lemma {:induction false} TypedAccepted(d: Data, ps: seq<Payload>, kinds: bytes -> Kind)
    requires Typed(d, kinds) && forall p :: p in ps ==> Fits(p, kinds)
    ensures Applied(d, ps).Some?
    decreases |ps|
  {
    if ps != [] {
      FitsAccepted(d, ps[0], kinds);
      TypedAccepted(Apply(d, ps[0]).data, ps[1..], kinds);
    }
  }

  /** Why the type matters: a hash write that the copied shard has already seen overtaken by a
      string is refused when it is replayed. */
  lemma TypeChangeRefused(d: Data, key: bytes, pairs: map<bytes, bytes>, v: bytes)
    requires |pairs| != 0 && key !in d
    ensures var hset, put := Message(HSetOp, key).(fields := pairs), Message(SetOp, key).(value := v);
      Applied(d, [hset, put]).Some? && Applied(Applied(d, [hset, put]).value, [hset, put]) == None
  {
    var hset, put := Message(HSetOp, key).(fields := pairs), Message(SetOp, key).(value := v);
    assert [hset, put][1..] == [put] && [put][1..] == [];
    var mid := Apply(d, hset).data;
    assert Applied(mid, [put]) == Some(mid[key := Str(v)]);
    assert Applied(d, [hset, put]) == Some(mid[key := Str(v)]);
  }

  // ----- the drain ------------------------------------------------------------------------

  const MAX_ROUNDS: nat := 500

  /** What arrives by the time the buffer has been looked at `n` times: frames come in while the
      drain works, as many as the links deliver between two looks. */
  function Arrived(arrivals: seq<seq<Payload>>, n: nat): seq<Payload>
    requires n <= |arrivals|
  {
    if n == 0 then [] else Arrived(arrivals, n - 1) + arrivals[n - 1]
  }

  /** Applied and buffered payloads are, in order, those buffered at first and those arrived. */
  ghost predicate Accounted(applied: seq<Payload>, buffer: seq<Payload>, first: seq<Payload>,
                            arrivals: seq<seq<Payload>>, n: nat)
  {
    n <= |arrivals| && applied + buffer == first + Arrived(arrivals, n)
  }

  lemma AccountedMore(applied: seq<Payload>, buffer: seq<Payload>, first: seq<Payload>,
                      arrivals: seq<seq<Payload>>, n: nat)
    requires Accounted(applied, buffer, first, arrivals, n) && n < |arrivals|
    ensures Accounted(applied, buffer + arrivals[n], first, arrivals, n + 1)
  {
    assert applied + (buffer + arrivals[n]) == (applied + buffer) + arrivals[n];
  }

  lemma AccountedPop(applied: seq<Payload>, buffer: seq<Payload>, first: seq<Payload>,
                     arrivals: seq<seq<Payload>>, n: nat)
    requires Accounted(applied, buffer, first, arrivals, n) && buffer != []
    ensures Accounted(applied + [buffer[0]], buffer[1..], first, arrivals, n)
  {
    assert applied + [buffer[0]] + buffer[1..] == applied + buffer;
  }

  lemma AppliedSnoc(d: Data, ps: seq<Payload>, p: Payload)
    requires Applied(d, ps).Some?
    ensures Applied(d, ps + [p]) == var o := Apply(Applied(d, ps).value, p); if o.reply.Fail? then None else Some(o.data)
  {
    AppliedConcat(d, ps, [p]);
    assert [p][1..] == [];
  }

  class Joiner {
    const db: Database
    var buffer: seq<Payload>

    constructor (db: Database)
      ensures this.db == db && buffer == []
    {
      this.db := db;
      buffer := [];
    }

    /** Pops and applies until a look at the buffer finds it empty or a write is refused. `seen`
        counts the looks, each of which sees what has arrived since the one before. */
    method DrainRound(arrivals: seq<seq<Payload>>, from: nat,
                      ghost first: seq<Payload>, ghost done: seq<Payload>, ghost start: Data)
      returns (ok: bool, drained: bool, seen: nat, ghost applied: seq<Payload>)
      requires Accounted(done, buffer, first, arrivals, from) && Applied(start, done) == Some(db.data)
      modifies this, db
      ensures Accounted(applied, buffer, first, arrivals, seen) && from <= seen && done <= applied
      ensures ok <==> Applied(start, applied).Some?
      ensures ok ==> buffer == [] && Applied(start, applied) == Some(db.data)
      ensures drained <==> applied != done
    {
      hide Accounted, Applied;
      drained, seen, applied := false, from, done;
      while true
        invariant Accounted(applied, buffer, first, arrivals, seen) && from <= seen && done <= applied
        invariant Applied(start, applied) == Some(db.data) && (drained <==> applied != done)
        decreases |arrivals| - seen, |buffer|
      {
        if seen < |arrivals| {
          AccountedMore(applied, buffer, first, arrivals, seen);
          buffer, seen := buffer + arrivals[seen], seen + 1;
        }
        if buffer == [] { return true, drained, seen, applied; }
        var p := buffer[0];
        AccountedPop(applied, buffer, first, arrivals, seen);
        AppliedSnoc(start, applied, p);
        buffer := buffer[1..];
        drained, applied := true, applied + [p];
        var r := ApplyPayload(db, p);
        if r.Fail? { return false, drained, seen, applied; }
      }
    }

    /** Rounds of draining until one finds nothing, at most 500 of them, unless the run is
        cancelled or a write refused. A clean finish has applied, in order, everything that was
        buffered or had arrived when the buffer was last looked at. */
    method DrainInboundQueue(arrivals: seq<seq<Payload>>, cancelled: nat -> bool)
      returns (ok: bool, rounds: nat, seen: nat, ghost applied: seq<Payload>)
      modifies this, db
      ensures Accounted(applied, buffer, old(buffer), arrivals, seen) && rounds <= MAX_ROUNDS
      ensures ok ==> buffer == [] && Applied(old(db.data), applied) == Some(db.data)
      ensures !ok ==> Applied(old(db.data), applied).None? || (rounds < MAX_ROUNDS && cancelled(rounds))
    {
      applied, rounds, seen := [], 0, 0;
      var drained := true;
      ok := true;
      while rounds < MAX_ROUNDS
        invariant rounds <= MAX_ROUNDS && Accounted(applied, buffer, old(buffer), arrivals, seen)
        invariant Applied(old(db.data), applied) == Some(db.data) && (rounds > 0 ==> buffer == [])
      {
        if cancelled(rounds) { return false, rounds, seen, applied; }
        ok, drained, seen, applied := DrainRound(arrivals, seen, old(buffer), applied, old(db.data));
        if !ok || !drained { return ok, rounds, seen, applied; }
        rounds := rounds + 1;
      }
      ok := true;
    }
  }
}
