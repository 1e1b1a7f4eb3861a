/** The data of a store without expiry and without a memory limit: what each write does to it,
    and a database whose methods do so step by step. */
module Keyspace {
  import opened Bytes
  import opened Lists

  /** Keys are spread over this many shards. */
  const NUM_SHARDS: nat := 256

  /** Every key has a shard. */
  ghost predicate Routed(shardOf: bytes -> nat) { forall k :: shardOf(k) < NUM_SHARDS }

  datatype Value =
    | Str(str: bytes)
    | Hash(fields: map<bytes, bytes>)
    | List(list: items)
    | Set(members: set<bytes>)

  type Data = map<bytes, Value>

  /** What a client can see of an entry. */
  datatype Rec = Rec(value: Value, expiresAt: Option<int>)

  /** The watch versions after a change to a key; a key without one counts as version 0. */
  function Bumped(versions: map<bytes, nat>, key: bytes): map<bytes, nat>
  {
    versions[key := ((if key in versions then versions[key] else 0) + 1) % UINT64_SIZE]
  }

  datatype Error = WrongType | NoSuchKey | IndexRange | BadPayload | NotANumber | WouldOverflow

  datatype Reply = Num(n: int) | Values(vs: items) | Done | Fail(error: Error)

  datatype Outcome = Outcome(data: Data, reply: Reply)

  /** A list is kept only while it has elements. */
  function PutList(d: Data, key: bytes, l: items): Data
  {
    if l == [] then d - {key} else d[key := List(l)]
  }

  function ListLen(d: Data, key: bytes): Reply
  {
    if key !in d then Num(0)
    else if !d[key].List? then Fail(WrongType)
    else Num(|d[key].list|)
  }

  function ListPush(d: Data, key: bytes, vals: items, left: bool): Outcome
  {
    if vals == [] then Outcome(d, ListLen(d, key))
    else if key in d && !d[key].List? then Outcome(d, Fail(WrongType))
    else
      var l := Push(if key in d then d[key].list else [], vals, left);
      Outcome(d[key := List(l)], Num(|l|))
  }

  function ListPushX(d: Data, key: bytes, vals: items, left: bool): Outcome
  {
    if vals == [] then Outcome(d, ListLen(d, key))
    else if key !in d then Outcome(d, Num(0))
    else ListPush(d, key, vals, left)
  }

  function ListPop(d: Data, key: bytes, count: int, left: bool): Outcome
  {
    if key !in d then Outcome(d, Values([]))
    else if !d[key].List? then Outcome(d, Fail(WrongType))
    else if d[key].list == [] then Outcome(d, Values([]))
    else Outcome(PutList(d, key, PopRest(d[key].list, count, left)), Values(PopOut(d[key].list, count, left)))
  }

  function ListSet(d: Data, key: bytes, index: int, val: bytes): Outcome
  {
    if key !in d then Outcome(d, Fail(NoSuchKey))
    else if !d[key].List? then Outcome(d, Fail(WrongType))
    else
      var l := d[key].list;
      if l == [] || index >= |l| then Outcome(d, Fail(IndexRange))
      else Outcome(d[key := List(l[NormalizeIndex(index, |l|) := val])], Num(0))
  }

  function ListRem(d: Data, key: bytes, count: int, val: bytes): Outcome
  {
    if key !in d then Outcome(d, Num(0))
    else if !d[key].List? then Outcome(d, Fail(WrongType))
    else if d[key].list == [] then Outcome(d, Num(0))
    else
      var l := Remove(d[key].list, count, val);
      Outcome(PutList(d, key, l), Num(|d[key].list| - |l|))
  }

  function ListTrim(d: Data, key: bytes, start: int, stop: int): Outcome
  {
    if key !in d then Outcome(d, Num(0))
    else if !d[key].List? then Outcome(d, Fail(WrongType))
    else if d[key].list == [] then Outcome(d, Num(0))
    else Outcome(PutList(d, key, Slice(d[key].list, start, stop)), Num(0))
  }

  function ListInsert(d: Data, key: bytes, before: bool, pivot: bytes, x: bytes): Outcome
  {
    if key !in d then Outcome(d, Num(0))
    else if !d[key].List? then Outcome(d, Fail(WrongType))
    else if pivot !in d[key].list then Outcome(d, Num(-1))
    else
      var l := Insert(d[key].list, before, pivot, x);
      Outcome(d[key := List(l)], Num(|l|))
  }

  function KeySet(keys: seq<bytes>): set<bytes> { set k | k in keys }

  function Rename(d: Data, src: bytes, dst: bytes): Outcome
  {
    if src == dst then Outcome(d, Num(1))
    else if src !in d then Outcome(d, Fail(NoSuchKey))
    else Outcome((d - {src})[dst := d[src]], Num(1))
  }

  function RenameNX(d: Data, src: bytes, dst: bytes): Outcome
  {
    if src == dst then Outcome(d, Num(1))
    else if src !in d || dst in d then Outcome(d, Num(0))
    else Outcome((d - {src})[dst := d[src]], Num(1))
  }

  function HashSet(d: Data, key: bytes, pairs: map<bytes, bytes>): Outcome
  {
    if |pairs| == 0 then Outcome(d, Done)
    else if key in d && !d[key].Hash? then Outcome(d, Fail(WrongType))
    else
      var h := if key in d then d[key].fields else map[];
      Outcome(d[key := Hash(h + pairs)], Done)
  }

  function HashDel(d: Data, key: bytes, fields: seq<bytes>): Outcome
  {
    if key !in d then Outcome(d, Done)
    else if !d[key].Hash? then Outcome(d, Fail(WrongType))
    else
      var h := d[key].fields - KeySet(fields);
      Outcome(if |h| == 0 then d - {key} else d[key := Hash(h)], Done)
  }

  /** How many fields or members a key holds. */
  function Cardinal(d: Data, key: bytes): int
  {
    if key !in d then 0
    else if d[key].Hash? then |d[key].fields.Keys|
    else if d[key].Set? then |d[key].members|
    else 0
  }

  function SetAdd(d: Data, key: bytes, members: items): Outcome
  {
    if members == [] then Outcome(d, Done)
    else if key in d && !d[key].Set? then Outcome(d, Fail(WrongType))
    else
      var s := if key in d then d[key].members else {};
      Outcome(d[key := Set(s + KeySet(members))], Done)
  }

  function SetRem(d: Data, key: bytes, members: items): Outcome
  {
    if key !in d then Outcome(d, Done)
    else if !d[key].Set? then Outcome(d, Fail(WrongType))
    else
      var s := d[key].members - KeySet(members);
      Outcome(if |s| == 0 then d - {key} else d[key := Set(s)], Done)
  }

  lemma KeySetSnoc(keys: seq<bytes>, i: nat)
    requires i < |keys|
    ensures KeySet(keys[..i + 1]) == KeySet(keys[..i]) + {keys[i]}
  {
    assert keys[..i + 1] == keys[..i] + [keys[i]];
  }

  /** One more key taken out of a map. */
  lemma DropOne<V>(m: map<bytes, V>, r: map<bytes, V>, keys: seq<bytes>, i: nat)
    requires i < |keys| && r == m - KeySet(keys[..i])
    ensures keys[i] !in r ==> m - KeySet(keys[..i + 1]) == r
    ensures keys[i] in r ==> m - KeySet(keys[..i + 1]) == r - {keys[i]}
                             && |(r - {keys[i]}).Keys| == |r.Keys| - 1
  {
    KeySetSnoc(keys, i);
    assert (r - {keys[i]}).Keys == r.Keys - {keys[i]};
  }

  /** A merge of two hashes with some fields still to do. */
  ghost predicate Merged(h: map<bytes, bytes>, pairs: map<bytes, bytes>, todo: set<bytes>, r: map<bytes, bytes>)
  {
    && (forall f :: f in r <==> f in h || (f in pairs && f !in todo))
    && (forall f :: f in r ==> r[f] == if f in pairs && f !in todo then pairs[f] else h[f])
  }

  lemma PutOne(h: map<bytes, bytes>, pairs: map<bytes, bytes>, todo: set<bytes>, r: map<bytes, bytes>, f: bytes)
    requires Merged(h, pairs, todo, r) && f in pairs && f in todo
    ensures Merged(h, pairs, todo - {f}, r[f := pairs[f]])
    ensures |r[f := pairs[f]].Keys| == |r.Keys| + if f in r then 0 else 1
  {
    assert r[f := pairs[f]].Keys == r.Keys + {f};
  }

  /** The loops over fields and members: each counts what it really changed. */
  method DropFields(h: map<bytes, bytes>, fields: seq<bytes>) returns (r: map<bytes, bytes>, n: int)
    ensures r == h - KeySet(fields) && n == |h.Keys| - |r.Keys|
  {
    r, n := h, 0;
    for i := 0 to |fields|
      invariant r == h - KeySet(fields[..i])
      invariant n == |h.Keys| - |r.Keys|
    {
      DropOne(h, r, fields, i);
      if fields[i] in r {
        r := r - {fields[i]};
        n := n + 1;
      }
    }
    assert fields[..|fields|] == fields;
  }

  method PutFields(h: map<bytes, bytes>, pairs: map<bytes, bytes>) returns (r: map<bytes, bytes>, n: int)
    ensures r == h + pairs && n == |r.Keys| - |h.Keys|
  {
    r, n := h, 0;
    var todo := pairs.Keys;
    while todo != {}
      invariant todo <= pairs.Keys
      invariant Merged(h, pairs, todo, r)
      invariant n == |r.Keys| - |h.Keys|
    {
      var f :| f in todo;
      PutOne(h, pairs, todo, r, f);
      if f !in r {
        n := n + 1;
      }
      r := r[f := pairs[f]];
      todo := todo - {f};
    }
    assert r == h + pairs;
  }

  method AddMembers(s: set<bytes>, members: items) returns (r: set<bytes>, n: int)
    ensures r == s + KeySet(members) && n == |r| - |s|
  {
    r, n := s, 0;
    for i := 0 to |members|
      invariant r == s + KeySet(members[..i]) && n == |r| - |s|
    {
      KeySetSnoc(members, i);
      if members[i] !in r {
        r := r + {members[i]};
        n := n + 1;
      }
    }
    assert members[..|members|] == members;
  }

  method DropMembers(s: set<bytes>, members: items) returns (r: set<bytes>, n: int)
    ensures r == s - KeySet(members) && n == |s| - |r|
  {
    r, n := s, 0;
    for i := 0 to |members|
      invariant r == s - KeySet(members[..i]) && n == |s| - |r|
    {
      KeySetSnoc(members, i);
      if members[i] in r {
        r := r - {members[i]};
        n := n + 1;
      }
    }
    assert members[..|members|] == members;
  }

  class Database {
    var data: Data

    constructor ()
      ensures data == map[]
    {
      data := map[];
    }

    method Store(key: bytes, val: bytes)
      modifies this
      ensures data == old(data)[key := Str(val)]
    {
      data := data[key := Str(val)];
    }

    method LPush(key: bytes, vals: items, left: bool) returns (r: Reply)
      modifies this
      ensures Outcome(data, r) == ListPush(old(data), key, vals, left)
    {
      if vals == [] { return ListLen(data, key); }
      var l: items := [];
      if key in data {
        if !data[key].List? { return Fail(WrongType); }
        l := data[key].list;
      }
      var nl := PushItems(l, vals, left);
      data := data[key := List(nl)];
      r := Num(|nl|);
    }

    method LPushX(key: bytes, vals: items, left: bool) returns (r: Reply)
      modifies this
      ensures Outcome(data, r) == ListPushX(old(data), key, vals, left)
    {
      if vals == [] { return ListLen(data, key); }
      if key !in data { return Num(0); }
      if !data[key].List? { return Fail(WrongType); }
      var nl := PushItems(data[key].list, vals, left);
      data := data[key := List(nl)];
      r := Num(|nl|);
    }

    method Pop(key: bytes, count: int, left: bool) returns (r: Reply)
      modifies this
      ensures Outcome(data, r) == ListPop(old(data), key, count, left)
    {
      if key !in data { return Values([]); }
      if !data[key].List? { return Fail(WrongType); }
      if data[key].list == [] { return Values([]); }
      var rest, out := PopItems(data[key].list, count, left);
      data := if rest == [] then data - {key} else data[key := List(rest)];
      r := Values(out);
    }

    method LSet(key: bytes, index: int, val: bytes) returns (r: Reply)
      modifies this
      ensures Outcome(data, r) == ListSet(old(data), key, index, val)
    {
      if key !in data { return Fail(NoSuchKey); }
      if !data[key].List? { return Fail(WrongType); }
      var l := data[key].list;
      if index >= 0 && index >= |l| { return Fail(IndexRange); }
      var idx := NormalizeIndex(index, |l|);
      if idx < 0 || idx >= |l| { return Fail(IndexRange); }
      data := data[key := List(l[idx := val])];
      r := Num(0);
    }

    method LRem(key: bytes, count: int, val: bytes) returns (r: Reply)
      modifies this
      ensures Outcome(data, r) == ListRem(old(data), key, count, val)
    {
      if key !in data { return Num(0); }
      if !data[key].List? { return Fail(WrongType); }
      if data[key].list == [] { return Num(0); }
      var l, removed := RemoveItems(data[key].list, count, val);
      data := if l == [] then data - {key} else data[key := List(l)];
      r := Num(removed);
    }

    method LTrim(key: bytes, start: int, stop: int) returns (r: Reply)
      modifies this
      ensures Outcome(data, r) == ListTrim(old(data), key, start, stop)
    {
      if key !in data { return Num(0); }
      if !data[key].List? { return Fail(WrongType); }
      if data[key].list == [] { return Num(0); }
      var l := SliceItems(data[key].list, start, stop);
      data := if l == [] then data - {key} else data[key := List(l)];
      r := Num(0);
    }

    method LInsert(key: bytes, before: bool, pivot: bytes, x: bytes) returns (r: Reply)
      modifies this
      ensures Outcome(data, r) == ListInsert(old(data), key, before, pivot, x)
    {
      if key !in data { return Num(0); }
      if !data[key].List? { return Fail(WrongType); }
      var found, l := InsertItems(data[key].list, before, pivot, x);
      if !found { return Num(-1); }
      data := data[key := List(l)];
      r := Num(|l|);
    }

    /** Deletes keys one by one and counts the ones that were there. */
    method Del(keys: seq<bytes>) returns (n: int)
      modifies this
      ensures data == old(data) - KeySet(keys)
      ensures n == |old(data).Keys| - |data.Keys|
    {
      n := 0;
      for i := 0 to |keys|
        invariant data == old(data) - KeySet(keys[..i])
        invariant n == |old(data).Keys| - |data.Keys|
      {
        DropOne(old(data), data, keys, i);
        if keys[i] in data {
          data := data - {keys[i]};
          n := n + 1;
        }
      }
      assert keys[..|keys|] == keys;
    }

    method RenameKey(src: bytes, dst: bytes) returns (r: Reply)
      modifies this
      ensures Outcome(data, r) == Rename(old(data), src, dst)
    {
      if src == dst { return Num(1); }
      if src !in data { return Fail(NoSuchKey); }
      var v := data[src];
      if dst in data { data := data - {dst}; }
      data := data - {src};
      data := data[dst := v];
      r := Num(1);
    }

    method RenameKeyNX(src: bytes, dst: bytes) returns (r: Reply)
      modifies this
      ensures Outcome(data, r) == RenameNX(old(data), src, dst)
    {
      if src == dst { return Num(1); }
      if src !in data { return Num(0); }
      if dst in data { return Num(0); }
      var v := data[src];
      data := data - {src};
      data := data[dst := v];
      r := Num(1);
    }

    method HSet(key: bytes, pairs: map<bytes, bytes>) returns (r: Reply, n: int)
      modifies this
      ensures Outcome(data, r) == HashSet(old(data), key, pairs)
      ensures r.Done? ==> n == Cardinal(data, key) - Cardinal(old(data), key)
    {
      if |pairs| == 0 { return Done, 0; }
      var h: map<bytes, bytes> := map[];
      if key in data {
        if !data[key].Hash? { return Fail(WrongType), 0; }
        h := data[key].fields;
      }
      var nh, count := PutFields(h, pairs);
      data := data[key := Hash(nh)];
      r, n := Done, count;
    }

    method HDel(key: bytes, fields: seq<bytes>) returns (r: Reply, n: int)
      modifies this
      ensures Outcome(data, r) == HashDel(old(data), key, fields)
      ensures r.Done? ==> n == Cardinal(old(data), key) - Cardinal(data, key)
    {
      if key !in data { return Done, 0; }
      if !data[key].Hash? { return Fail(WrongType), 0; }
      var h, count := DropFields(data[key].fields, fields);
      data := if |h| == 0 then data - {key} else data[key := Hash(h)];
      r, n := Done, count;
    }

    method SAdd(key: bytes, members: items) returns (r: Reply, n: int)
      modifies this
      ensures Outcome(data, r) == SetAdd(old(data), key, members)
      ensures r.Done? ==> n == Cardinal(data, key) - Cardinal(old(data), key)
    {
      if members == [] { return Done, 0; }
      var s: set<bytes> := {};
      if key in data {
        if !data[key].Set? { return Fail(WrongType), 0; }
        s := data[key].members;
      }
      var ns, count := AddMembers(s, members);
      data := data[key := Set(ns)];
      r, n := Done, count;
    }

    method SRem(key: bytes, members: items) returns (r: Reply, n: int)
      modifies this
      ensures Outcome(data, r) == SetRem(old(data), key, members)
      ensures r.Done? ==> n == Cardinal(old(data), key) - Cardinal(data, key)
    {
      if key !in data { return Done, 0; }
      if !data[key].Set? { return Fail(WrongType), 0; }
      var s, count := DropMembers(data[key].members, members);
      data := if |s| == 0 then data - {key} else data[key := Set(s)];
      r, n := Done, count;
    }

    /** Overwrites a key with a set, even an empty one. */
    method ReplaceSet(key: bytes, members: items)
      modifies this
      ensures data == old(data)[key := Set(KeySet(members))]
    {
      var s: set<bytes> := {};
      for i := 0 to |members|
        invariant data == old(data) && s == KeySet(members[..i])
      {
        KeySetSnoc(members, i);
        s := s + {members[i]};
      }
      assert members[..|members|] == members;
      data := data[key := Set(s)];
    }

    method FlushDB()
      modifies this
      ensures data == map[]
    {
      data := map[];
    }
  }
}
