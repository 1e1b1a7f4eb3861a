/** Snapshot entries: how a shard is copied out of one store and loaded into another. */
module Snapshot {
  import opened Bytes
  import opened Lists
  import opened Keyspace

  datatype Kind = StringKind | HashKind | ListKind | SetKind | UnknownKind

  datatype Entry = Entry(
    key: bytes, kind: Kind, value: bytes, fields: map<bytes, bytes>, members: items, elements: items)

  /** The value an entry stands for, if its kind is known. */
  function Denotes(e: Entry): Option<Value>
  {
    match e.kind
    case StringKind => Some(Str(e.value))
    case HashKind => Some(Hash(e.fields))
    case ListKind => Some(List(e.elements))
    case SetKind => Some(Set(KeySet(e.members)))
    case UnknownKind => None
  }

  /** Loading an entry overwrites its key; an entry of unknown kind is refused. */
  function Load(d: Data, e: Entry): Option<Data>
  {
    var v := Denotes(e);
    if v.None? then None else Some(d[e.key := v.value])
  }

  function LoadAll(d: Data, es: seq<Entry>): Option<Data>
    decreases |es|
  {
    if es == [] then Some(d)
    else
      var next := Load(d, es[0]);
      if next.None? then None else LoadAll(next.value, es[1..])
  }

  lemma {:induction false} LoadAllConcat(d: Data, a: seq<Entry>, b: seq<Entry>)
    ensures LoadAll(d, a + b) == var m := LoadAll(d, a); if m.None? then None else LoadAll(m.value, b)
    decreases |a|
  {
    if a == [] {
      assert a + b == b;
    } else {
      assert (a + b)[1..] == a[1..] + b;
      if Load(d, a[0]).Some? { LoadAllConcat(Load(d, a[0]).value, a[1..], b); }
    }
  }

  function KeysOf(es: seq<Entry>): set<bytes> { set e | e in es :: e.key }

  lemma KeysOfCons(es: seq<Entry>)
    requires es != []
    ensures KeysOf(es) == {es[0].key} + KeysOf(es[1..])
  {
    assert es == [es[0]] + es[1..];
  }

  ghost predicate Faithful(es: seq<Entry>, d: Data)
  {
    forall e :: e in es ==> e.key in d && Denotes(e) == Some(d[e.key])
  }

  /** Entries that describe exactly the keys and values of some data, in any order. */
  ghost predicate Describe(es: seq<Entry>, d: Data)
  {
    Faithful(es, d) && KeysOf(es) == d.Keys
  }

  function Restrict(d: Data, ks: set<bytes>): Data { map k | k in d && k in ks :: d[k] }

  lemma RestrictOneMore(base: Data, d: Data, ks: set<bytes>, k: bytes)
    requires k in d
    ensures base[k := d[k]] + Restrict(d, ks) == base + Restrict(d, {k} + ks)
  {
  }

  /** Loading faithful entries lays their part of the data over what was there. */
  lemma {:induction false} LoadFaithful(base: Data, es: seq<Entry>, d: Data)
    requires Faithful(es, d)
    ensures LoadAll(base, es) == Some(base + Restrict(d, KeysOf(es)))
    decreases |es|
  {
    if es == [] {
      assert base + Restrict(d, KeysOf(es)) == base;
    } else {
      var k := es[0].key;
      LoadFaithful(base[k := d[k]], es[1..], d);
      KeysOfCons(es);
      RestrictOneMore(base, d, KeysOf(es[1..]), k);
    }
  }

  /** Copy-out followed by loading gives the copied data. */
  lemma SnapshotRoundTrip(base: Data, es: seq<Entry>, d: Data)
    requires Describe(es, d)
    ensures LoadAll(base, es) == Some(base + d)
  {
    LoadFaithful(base, es, d);
    assert Restrict(d, KeysOf(es)) == d;
  }

  /** The keys of one shard, for any routing of keys to shards. */
  function Part(d: Data, shardOf: bytes -> nat, i: nat): Data
  {
    map k | k in d && shardOf(k) == i :: d[k]
  }

  method BuildEntry(key: bytes, v: Value) returns (e: Entry)
    ensures e.key == key && Denotes(e) == Some(v)
  {
    match v {
      case Str(b) => e := Entry(key, StringKind, b, map[], [], []);
      case Hash(h) => e := Entry(key, HashKind, [], h, [], []);
      case List(l) => e := Entry(key, ListKind, [], map[], [], l);
      case Set(s) =>
        var ms := MembersOf(s);
        e := Entry(key, SetKind, [], map[], ms, []);
    }
  }

  /** A set's members in the order the map happens to yield them. */
  method MembersOf(s: set<bytes>) returns (ms: items)
    ensures KeySet(ms) == s
  {
    ms := [];
    var todo := s;
    while todo != {}
      invariant todo <= s && KeySet(ms) == s - todo
    {
      var m :| m in todo;
      assert KeySet(ms + [m]) == KeySet(ms) + {m};
      ms := ms + [m];
      todo := todo - {m};
    }
  }

  /** The copy of one shard, made under its lock. */
  method CopyShard(db: Database, shardOf: bytes -> nat, i: nat) returns (batch: seq<Entry>)
    ensures Describe(batch, Part(db.data, shardOf, i))
  {
    batch := [];
    var part := map k | k in db.data && shardOf(k) == i :: db.data[k];
    var todo := part.Keys;
    while todo != {}
      invariant todo <= part.Keys
      invariant Describe(batch, part - todo)
    {
      var k :| k in todo;
      var e := BuildEntry(k, part[k]);
      DescribeOneMore(batch, part, todo, k, e);
      batch := batch + [e];
      todo := todo - {k};
    }
    assert part - todo == part;
  }

  lemma DescribeOneMore(batch: seq<Entry>, part: Data, todo: set<bytes>, k: bytes, e: Entry)
    requires todo <= part.Keys && k in todo && Describe(batch, part - todo)
    requires e.key == k && Denotes(e) == Some(part[k])
    ensures Describe(batch + [e], part - (todo - {k}))
  {
    assert KeysOf(batch + [e]) == KeysOf(batch) + {k};
  }

  /** Rebuilds the value of one entry and stores it. */
  method LoadEntry(db: Database, e: Entry) returns (ok: bool)
    modifies db
    ensures ok <==> Load(old(db.data), e).Some?
    ensures db.data == if ok then Load(old(db.data), e).value else old(db.data)
  {
    match e.kind {
      case StringKind => db.Store(e.key, e.value);
      case HashKind => db.data := db.data[e.key := Hash(e.fields)];
      case ListKind =>
        var l := PushItems([], e.elements, false);
        assert l == e.elements;
        db.data := db.data[e.key := List(l)];
      case SetKind => db.ReplaceSet(e.key, e.members);
      case UnknownKind => return false;
    }
    ok := true;
  }

  /** Loads a batch; the first refused entry ends it. */
  method LoadBatch(db: Database, batch: seq<Entry>) returns (ok: bool)
    modifies db
    ensures ok <==> LoadAll(old(db.data), batch).Some?
    ensures ok ==> db.data == LoadAll(old(db.data), batch).value
  {
    for i := 0 to |batch|
      invariant LoadAll(db.data, batch[i..]) == LoadAll(old(db.data), batch)
    {
      assert batch[i..][1..] == batch[i + 1..];
      var one := LoadEntry(db, batch[i]);
      if !one { return false; }
    }
    ok := true;
  }
}
