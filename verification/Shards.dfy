/** One shard of the store: its map of entries, its two recency lists, and the pointers from
    entries into them. */
module Shards {
  import opened Bytes
  import opened Keyspace
  import opened Lru

  /** An entry points at its node in either list; the list's node is found again through it. */
  datatype Entry = Entry(value: Value, expiresAt: Option<int>, all: Option<nat>, vol: Option<nat>)

  datatype Shard = Shard(m: map<bytes, Entry>, all: Index, vol: Index)

  const EMPTY_SHARD: Shard := Shard(map[], EMPTY, EMPTY)

  datatype Policy = NoEviction | AllKeysLru | VolatileLru | AllKeysRandom | VolatileRandom | VolatileTtl

  /** The history the recency lists answer to: when a key was last touched under each policy, and
      whether that policy has been the only one so far. */
  datatype Book = Book(allAt: map<bytes, nat>, volAt: map<bytes, nat>, clock: nat, everAll: bool, everVol: bool)

  function At(elems: map<bytes, nat>, k: bytes): Option<nat>
  {
    if k in elems then Some(elems[k]) else None
  }

  /** Index maps, list nodes and entry pointers agree one to one on a subset of the stored keys;
      the volatile list holds only keys that expire. */
  ghost predicate Agrees(sh: Shard, next: nat)
  {
    Linked(sh.all, next) && Linked(sh.vol, next) && Pointed(sh.m, sh.all.elems, sh.vol.elems)
  }

  ghost predicate Pointed(m: map<bytes, Entry>, all: map<bytes, nat>, vol: map<bytes, nat>)
  {
    && (forall k :: k in m ==> m[k].all == At(all, k) && m[k].vol == At(vol, k))
    && (forall k :: k in all ==> k in m)
    && (forall k :: k in vol ==> k in m && m[k].expiresAt.Some?)
  }

  /** What the lists hold and in which order, given the history. */
  ghost predicate Faithful(sh: Shard, b: Book)
  {
    && InOrder(sh, b)
    && (b.everAll ==> forall k :: k in sh.m ==> k in sh.all.elems)
    && (b.everVol ==> forall k :: k in sh.m && sh.m[k].expiresAt.Some? ==> k in sh.vol.elems)
  }

  function RemoveFromLru(sh: Shard, key: bytes, e: Entry): Shard
  {
    var sh1 := if e.all.Some? then sh.(all := Remove(sh.all, key, e.all.value)) else sh;
    if e.vol.Some? then sh1.(vol := Remove(sh1.vol, key, e.vol.value)) else sh1
  }

  /** The entry leaves the map and both lists. */
  function Purged(sh: Shard, key: bytes): Shard
    requires key in sh.m
  {
    RemoveFromLru(sh, key, sh.m[key]).(m := sh.m - {key})
  }

  /** A new entry takes the key over; it is on no list yet. */
  function Replaced(sh: Shard, key: bytes, v: Value, exp: Option<int>): Shard
  {
    var sh1 := if key in sh.m then RemoveFromLru(sh, key, sh.m[key]) else sh;
    sh1.(m := sh.m[key := Entry(v, exp, None, None)])
  }

  /** The bookkeeping of an access or a write: the policy's list gets the key in front. */
  function Touched(sh: Shard, key: bytes, pol: Policy, next: nat): Shard
    requires key in sh.m
  {
    var e := sh.m[key];
    match pol
    case AllKeysLru =>
      if key in sh.all.elems then sh.(all := MoveToFront(sh.all, sh.all.elems[key]))
      else sh.(all := PushFront(sh.all, key, next), m := sh.m[key := e.(all := Some(next))])
    case VolatileLru =>
      if e.expiresAt.None? then
        if e.vol.Some? then sh.(vol := Remove(sh.vol, key, e.vol.value), m := sh.m[key := e.(vol := None)]) else sh
      else if key in sh.vol.elems then sh.(vol := MoveToFront(sh.vol, sh.vol.elems[key]))
      else sh.(vol := PushFront(sh.vol, key, next), m := sh.m[key := e.(vol := Some(next))])
    case _ => sh
  }

  /** Two shards store the same except perhaps under one key. */
  ghost predicate SameBut(a: map<bytes, Entry>, b: map<bytes, Entry>, key: bytes)
  {
    forall k :: k != key ==> (k in a <==> k in b) && (k in a && k in b ==> a[k] == b[k])
  }

  /** A touch changes no value and no expiry. */
  lemma TouchedStores(sh: Shard, key: bytes, pol: Policy, next: nat)
    requires key in sh.m
    ensures var r := Touched(sh, key, pol, next);
      SameBut(r.m, sh.m, key) && key in r.m
      && r.m[key].value == sh.m[key].value && r.m[key].expiresAt == sh.m[key].expiresAt
  {
  }

  /** The key most recently touched under the policy in force. */
  predicate InFront(sh: Shard, key: bytes, pol: Policy, expires: bool)
  {
    && (pol == AllKeysLru ==> sh.all.nodes != [] && sh.all.nodes[0].key == key)
    && (pol == VolatileLru && expires ==> sh.vol.nodes != [] && sh.vol.nodes[0].key == key)
  }

  lemma TouchedInFront(sh: Shard, key: bytes, pol: Policy, next: nat)
    requires Agrees(sh, next) && key in sh.m
    ensures InFront(Touched(sh, key, pol, next), key, pol, sh.m[key].expiresAt.Some?)
  {
    if pol == AllKeysLru && key in sh.all.elems { MoveLinked(sh.all, key, next); }
    if pol == VolatileLru && key in sh.vol.elems { MoveLinked(sh.vol, key, next); }
  }

  function Stamped(b: Book, key: bytes, pol: Policy, expires: bool): Book
  {
    match pol
    case AllKeysLru => b.(allAt := b.allAt[key := b.clock], clock := b.clock + 1)
    case VolatileLru => if expires then b.(volAt := b.volAt[key := b.clock], clock := b.clock + 1) else b
    case _ => b
  }

  // ----- what each change keeps -----------------------------------------------------------

  lemma RemovedAgrees(sh: Shard, key: bytes, next: nat)
    requires Agrees(sh, next) && key in sh.m
    ensures var r := RemoveFromLru(sh, key, sh.m[key]);
      && Linked(r.all, next) && Linked(r.vol, next)
      && r.all.elems == sh.all.elems - {key} && r.vol.elems == sh.vol.elems - {key} && r.m == sh.m
  {
    if key in sh.all.elems { RemoveLinked(sh.all, key, next); }
    if key in sh.vol.elems { RemoveLinked(sh.vol, key, next); }
  }

  lemma RemovedRecent(sh: Shard, key: bytes, b: Book, e: Entry)
    requires InOrder(sh, b)
    ensures InOrder(RemoveFromLru(sh, key, e), b)
  {
    if e.all.Some? { RemoveRecent(sh.all, key, e.all.value, b.allAt, b.clock); }
    if e.vol.Some? { RemoveRecent(sh.vol, key, e.vol.value, b.volAt, b.clock); }
  }

  lemma PurgedKeeps(sh: Shard, key: bytes, next: nat, b: Book)
    requires Agrees(sh, next) && Faithful(sh, b) && key in sh.m
    ensures Agrees(Purged(sh, key), next) && Faithful(Purged(sh, key), b)
  {
    RemovedAgrees(sh, key, next);
    RemovedRecent(sh, key, b, sh.m[key]);
  }

  lemma ReplacedAgrees(sh: Shard, key: bytes, v: Value, exp: Option<int>, next: nat)
    requires Agrees(sh, next)
    ensures var r := Replaced(sh, key, v, exp);
      Agrees(r, next) && key !in r.all.elems && key !in r.vol.elems
      && r.all.elems == sh.all.elems - {key} && r.vol.elems == sh.vol.elems - {key}
  {
    if key in sh.m {
      RemovedAgrees(sh, key, next);
    } else {
      assert sh.all.elems - {key} == sh.all.elems;
      assert sh.vol.elems - {key} == sh.vol.elems;
    }
    NewPointed(sh.m, sh.all.elems, sh.vol.elems, key, Entry(v, exp, None, None));
  }

  lemma MovedAgrees(sh: Shard, key: bytes, next: nat)
    requires Agrees(sh, next)
    ensures key in sh.all.elems ==> Agrees(sh.(all := MoveToFront(sh.all, sh.all.elems[key])), next)
    ensures key in sh.vol.elems ==> Agrees(sh.(vol := MoveToFront(sh.vol, sh.vol.elems[key])), next)
  {
    if key in sh.all.elems { MoveLinked(sh.all, key, next); }
    if key in sh.vol.elems { MoveLinked(sh.vol, key, next); }
  }

  lemma AllPointed(m: map<bytes, Entry>, all: map<bytes, nat>, vol: map<bytes, nat>, key: bytes, id: nat)
    requires Pointed(m, all, vol) && key in m
    ensures Pointed(m[key := m[key].(all := Some(id))], all[key := id], vol)
  {
  }

  lemma VolPointed(m: map<bytes, Entry>, all: map<bytes, nat>, vol: map<bytes, nat>, key: bytes, id: nat)
    requires Pointed(m, all, vol) && key in m && m[key].expiresAt.Some?
    ensures Pointed(m[key := m[key].(vol := Some(id))], all, vol[key := id])
  {
  }

  lemma NewPointed(m: map<bytes, Entry>, all: map<bytes, nat>, vol: map<bytes, nat>, key: bytes, e: Entry)
    requires Pointed(m, all, vol) && e.all.None? && e.vol.None?
    ensures Pointed(m[key := e], all - {key}, vol - {key})
  {
  }

  lemma AllPushedAgrees(sh: Shard, key: bytes, next: nat)
    requires Agrees(sh, next) && key in sh.m && key !in sh.all.elems
    ensures Agrees(sh.(all := PushFront(sh.all, key, next), m := sh.m[key := sh.m[key].(all := Some(next))]), next + 1)
  {
    PushLinked(sh.all, key, next);
    LinkedLater(sh.vol, next);
    AllPointed(sh.m, sh.all.elems, sh.vol.elems, key, next);
  }

  lemma VolPushedAgrees(sh: Shard, key: bytes, next: nat)
    requires Agrees(sh, next) && key in sh.m && key !in sh.vol.elems && sh.m[key].expiresAt.Some?
    ensures Agrees(sh.(vol := PushFront(sh.vol, key, next), m := sh.m[key := sh.m[key].(vol := Some(next))]), next + 1)
  {
    PushLinked(sh.vol, key, next);
    LinkedLater(sh.all, next);
    VolPointed(sh.m, sh.all.elems, sh.vol.elems, key, next);
  }

  lemma AgreesLater(sh: Shard, next: nat)
    requires Agrees(sh, next)
    ensures Agrees(sh, next + 1)
  {
    LinkedLater(sh.all, next);
    LinkedLater(sh.vol, next);
  }

  lemma TouchedAgrees(sh: Shard, key: bytes, pol: Policy, next: nat)
    requires Agrees(sh, next) && key in sh.m
    ensures Agrees(Touched(sh, key, pol, next), next + 1)
  {
    if pol == AllKeysLru && key !in sh.all.elems {
      AllPushedAgrees(sh, key, next);
    } else if pol == VolatileLru && sh.m[key].expiresAt.Some? && key !in sh.vol.elems {
      VolPushedAgrees(sh, key, next);
    } else {
      MovedAgrees(sh, key, next);
      AgreesLater(Touched(sh, key, pol, next), next);
    }
  }

  ghost predicate InOrder(sh: Shard, b: Book)
  {
    Recent(sh.all, b.allAt, b.clock) && Recent(sh.vol, b.volAt, b.clock)
  }

  lemma AllTouchedRecent(sh: Shard, key: bytes, next: nat, b: Book)
    requires Agrees(sh, next) && key in sh.m && InOrder(sh, b)
    ensures InOrder(Touched(sh, key, AllKeysLru, next), Stamped(b, key, AllKeysLru, sh.m[key].expiresAt.Some?))
  {
    hide Linked, Recent, Pointed, MoveToFront;
    RecentLater(sh.vol, b.volAt, b.clock);
    if key in sh.all.elems { MoveRecent(sh.all, key, next, b.allAt, b.clock); }
    else { PushRecent(sh.all, key, next, b.allAt, b.clock); }
  }

  lemma VolTouchedRecent(sh: Shard, key: bytes, next: nat, b: Book)
    requires Agrees(sh, next) && key in sh.m && InOrder(sh, b)
    ensures InOrder(Touched(sh, key, VolatileLru, next), Stamped(b, key, VolatileLru, sh.m[key].expiresAt.Some?))
  {
    hide Linked, Recent, MoveToFront;
    if sh.m[key].expiresAt.Some? {
      RecentLater(sh.all, b.allAt, b.clock);
      if key in sh.vol.elems { MoveRecent(sh.vol, key, next, b.volAt, b.clock); }
      else { PushRecent(sh.vol, key, next, b.volAt, b.clock); }
    }
  }

  lemma TouchedRecent(sh: Shard, key: bytes, pol: Policy, next: nat, b: Book)
    requires Agrees(sh, next) && key in sh.m && InOrder(sh, b)
    ensures InOrder(Touched(sh, key, pol, next), Stamped(b, key, pol, sh.m[key].expiresAt.Some?))
  {
    match pol
    case AllKeysLru => AllTouchedRecent(sh, key, next, b);
    case VolatileLru => VolTouchedRecent(sh, key, next, b);
    case _ =>
  }

  /** A policy that was always in force is in force now. */
  predicate Current(b: Book, pol: Policy)
  {
    (b.everAll ==> pol == AllKeysLru) && (b.everVol ==> pol == VolatileLru)
  }

  lemma TouchedKeeps(sh: Shard, key: bytes, pol: Policy, next: nat, b: Book)
    requires Agrees(sh, next) && Faithful(sh, b) && key in sh.m
    ensures Agrees(Touched(sh, key, pol, next), next + 1)
    ensures Faithful(Touched(sh, key, pol, next), Stamped(b, key, pol, sh.m[key].expiresAt.Some?))
  {
    TouchedAgrees(sh, key, pol, next);
    TouchedRecent(sh, key, pol, next, b);
  }

  /** A write: the new entry replaces the old one and is touched. */
  lemma WrittenKeeps(sh: Shard, key: bytes, v: Value, exp: Option<int>, pol: Policy, next: nat, b: Book)
    requires Agrees(sh, next) && Faithful(sh, b) && Current(b, pol)
    ensures var r := Touched(Replaced(sh, key, v, exp), key, pol, next);
      Agrees(r, next + 1) && Faithful(r, Stamped(b, key, pol, exp.Some?))
  {
    var mid := Replaced(sh, key, v, exp);
    ReplacedAgrees(sh, key, v, exp, next);
    TouchedAgrees(mid, key, pol, next);
    if key in sh.m { RemovedRecent(sh, key, b, sh.m[key]); }
    TouchedRecent(mid, key, pol, next, b);
  }

  /** Another shard's key was touched. */
  lemma OtherKeeps(sh: Shard, key: bytes, pol: Policy, next: nat, b: Book, expires: bool)
    requires Agrees(sh, next) && Faithful(sh, b) && key !in sh.m
    ensures Agrees(sh, next + 1) && Faithful(sh, Stamped(b, key, pol, expires))
  {
    AgreesLater(sh, next);
    RecentElsewhere(sh.all, key, next, b.allAt, b.clock);
    RecentElsewhere(sh.vol, key, next, b.volAt, b.clock);
    RecentLater(sh.all, b.allAt, b.clock);
    RecentLater(sh.vol, b.volAt, b.clock);
  }

  /** A list shortened in place under its entry. */
  lemma MutatedKeeps(sh: Shard, key: bytes, v: Value, next: nat, b: Book)
    requires Agrees(sh, next) && Faithful(sh, b) && key in sh.m
    ensures var r := sh.(m := sh.m[key := sh.m[key].(value := v)]);
      Agrees(r, next) && Faithful(r, b)
  {
  }
}
