/** The sharded store: 256 maps with their recency lists, one byte counter, eviction, and the
    write operations built on purging and replacing entries. */
module Store {
  import opened Bytes
  import opened Lists
  import opened Keyspace
  import opened Memory
  import opened Lru
  import opened Shards

  const UINT32: nat := 0x1_0000_0000

  function RecOf(e: Entry): Rec { Rec(e.value, e.expiresAt) }

  ghost predicate Good(i: nat, sh: Shard, shardOf: bytes -> nat, next: nat, b: Book)
  {
    Agrees(sh, next) && Faithful(sh, b) && forall k :: k in sh.m ==> shardOf(k) == i
  }

  ghost predicate AllGood(shards: seq<Shard>, shardOf: bytes -> nat, next: nat, b: Book)
  {
    |shards| == NUM_SHARDS &&
    forall i {:trigger Good(i, shards[i], shardOf, next, b)} ::
      0 <= i < NUM_SHARDS ==> Good(i, shards[i], shardOf, next, b)
  }

  /** The map of what is stored is right about a key. */
  ghost predicate Seen(k: bytes, view: map<bytes, Rec>, shards: seq<Shard>, shardOf: bytes -> nat)
  {
    shardOf(k) < |shards| &&
    var m := shards[shardOf(k)].m;
    (k in view <==> k in m) && (k in view ==> view[k] == RecOf(m[k]))
  }

  /** What the shards hold, as one map. */
  ghost predicate Views(view: map<bytes, Rec>, shards: seq<Shard>, shardOf: bytes -> nat)
  {
    forall k {:trigger Seen(k, view, shards, shardOf)} :: Seen(k, view, shards, shardOf)
  }

  /** The data structure side of the store. */
  datatype Layout = Layout(
    shards: seq<Shard>, shardOf: bytes -> nat, next: nat, book: Book, view: map<bytes, Rec>)

  ghost predicate Structured(l: Layout)
  {
    && Routed(l.shardOf)
    && AllGood(l.shards, l.shardOf, l.next, l.book)
    && Views(l.view, l.shards, l.shardOf)
  }

  /** One shard's map changed at one key. */
  lemma ViewsUpdate(l: Layout, key: bytes, sh: Shard)
    requires Views(l.view, l.shards, l.shardOf) && l.shardOf(key) < |l.shards|
    requires SameBut(sh.m, l.shards[l.shardOf(key)].m, key)
    ensures var v := if key in sh.m then l.view[key := RecOf(sh.m[key])] else l.view - {key};
      Views(v, l.shards[l.shardOf(key) := sh], l.shardOf)
  {
    var v := if key in sh.m then l.view[key := RecOf(sh.m[key])] else l.view - {key};
    var after := l.shards[l.shardOf(key) := sh];
    forall k ensures Seen(k, v, after, l.shardOf) {
      assert Seen(k, l.view, l.shards, l.shardOf);
    }
  }

  lemma AllGoodUpdate(l: Layout, i: nat, sh: Shard)
    requires i < NUM_SHARDS && AllGood(l.shards, l.shardOf, l.next, l.book)
    requires Good(i, sh, l.shardOf, l.next, l.book)
    ensures AllGood(l.shards[i := sh], l.shardOf, l.next, l.book)
  {
    hide Good;
    var after := l.shards[i := sh];
    forall j | 0 <= j < NUM_SHARDS ensures Good(j, after[j], l.shardOf, l.next, l.book) {
      assert Good(j, l.shards[j], l.shardOf, l.next, l.book);
    }
  }

  /** A touch of a key, seen from another shard. */
  lemma OthersGood(l: Layout, key: bytes, pol: Policy, expires: bool, j: nat)
    requires AllGood(l.shards, l.shardOf, l.next, l.book) && j < NUM_SHARDS && j != l.shardOf(key)
    ensures Good(j, l.shards[j], l.shardOf, l.next + 1, Stamped(l.book, key, pol, expires))
  {
    hide Agrees, Faithful, Stamped;
    assert Good(j, l.shards[j], l.shardOf, l.next, l.book);
    OtherKeeps(l.shards[j], key, pol, l.next, l.book, expires);
  }

  lemma AllGoodStamped(l: Layout, key: bytes, pol: Policy, expires: bool, sh: Shard)
    requires AllGood(l.shards, l.shardOf, l.next, l.book) && l.shardOf(key) < NUM_SHARDS
    requires Good(l.shardOf(key), sh, l.shardOf, l.next + 1, Stamped(l.book, key, pol, expires))
    ensures AllGood(l.shards[l.shardOf(key) := sh], l.shardOf, l.next + 1, Stamped(l.book, key, pol, expires))
  {
    hide Good;
    var i, after, b := l.shardOf(key), l.shards[l.shardOf(key) := sh], Stamped(l.book, key, pol, expires);
    forall j | 0 <= j < NUM_SHARDS ensures Good(j, after[j], l.shardOf, l.next + 1, b) {
      if j != i { OthersGood(l, key, pol, expires, j); }
    }
  }

  ghost predicate InLayout(l: Layout, key: bytes)
  {
    key in l.view && Seen(key, l.view, l.shards, l.shardOf)
  }

  lemma PurgedStructured(l: Layout, key: bytes)
    requires Structured(l) && InLayout(l, key)
    ensures var i := l.shardOf(key);
      Structured(l.(shards := l.shards[i := Purged(l.shards[i], key)], view := l.view - {key}))
  {
    hide Agrees, Faithful;
    var i := l.shardOf(key);
    assert Good(i, l.shards[i], l.shardOf, l.next, l.book);
    PurgedKeeps(l.shards[i], key, l.next, l.book);
    AllGoodUpdate(l, i, Purged(l.shards[i], key));
    ViewsUpdate(l, key, Purged(l.shards[i], key));
  }

  /** A shard whose key was written or touched takes its place among the others. */
  lemma Rewritten(l: Layout, key: bytes, sh: Shard, r: Rec, pol: Policy)
    requires Structured(l) && l.shardOf(key) < |l.shards|
    requires Good(l.shardOf(key), sh, l.shardOf, l.next + 1, Stamped(l.book, key, pol, r.expiresAt.Some?))
    requires SameBut(sh.m, l.shards[l.shardOf(key)].m, key) && key in sh.m && RecOf(sh.m[key]) == r
    ensures Structured(l.(shards := l.shards[l.shardOf(key) := sh], next := l.next + 1,
                          book := Stamped(l.book, key, pol, r.expiresAt.Some?), view := l.view[key := r]))
  {
    hide Good, Stamped;
    AllGoodStamped(l, key, pol, r.expiresAt.Some?, sh);
    ViewsUpdate(l, key, sh);
  }

  lemma TouchedGood(i: nat, sh: Shard, shardOf: bytes -> nat, next: nat, b: Book, key: bytes, pol: Policy)
    requires Good(i, sh, shardOf, next, b) && key in sh.m
    ensures Good(i, Touched(sh, key, pol, next), shardOf, next + 1, Stamped(b, key, pol, sh.m[key].expiresAt.Some?))
  {
    hide Agrees, Faithful, Touched, Stamped;
    TouchedKeeps(sh, key, pol, next, b);
    TouchedStores(sh, key, pol, next);
  }

  lemma WrittenGood(i: nat, sh: Shard, shardOf: bytes -> nat, next: nat, b: Book, key: bytes, pol: Policy, r: Rec)
    requires Good(i, sh, shardOf, next, b) && Current(b, pol) && shardOf(key) == i
    ensures Good(i, Written(sh, key, r, pol, next), shardOf, next + 1, Stamped(b, key, pol, r.expiresAt.Some?))
  {
    hide Agrees, Faithful, Touched, Stamped;
    WrittenKeeps(sh, key, r.value, r.expiresAt, pol, next, b);
    TouchedStores(Replaced(sh, key, r.value, r.expiresAt), key, pol, next);
  }

  lemma TouchedStructured(l: Layout, key: bytes, pol: Policy)
    requires Structured(l) && InLayout(l, key)
    ensures var i := l.shardOf(key);
      Structured(l.(shards := l.shards[i := Touched(l.shards[i], key, pol, l.next)], next := l.next + 1,
                    book := Stamped(l.book, key, pol, l.view[key].expiresAt.Some?)))
  {
    hide Agrees, Faithful, Touched, Stamped;
    var i := l.shardOf(key);
    TouchedGood(i, l.shards[i], l.shardOf, l.next, l.book, key, pol);
    TouchedStores(l.shards[i], key, pol, l.next);
    Rewritten(l, key, Touched(l.shards[i], key, pol, l.next), l.view[key], pol);
    assert l.view[key := l.view[key]] == l.view;
  }

  function Written(sh: Shard, key: bytes, r: Rec, pol: Policy, next: nat): Shard
  {
    Touched(Replaced(sh, key, r.value, r.expiresAt), key, pol, next)
  }

  lemma WrittenStores(sh: Shard, key: bytes, r: Rec, pol: Policy, next: nat)
    ensures var w := Written(sh, key, r, pol, next);
      SameBut(w.m, sh.m, key) && key in w.m && RecOf(w.m[key]) == r
  {
    TouchedStores(Replaced(sh, key, r.value, r.expiresAt), key, pol, next);
  }

  lemma WrittenStructured(l: Layout, key: bytes, pol: Policy, r: Rec)
    requires Structured(l) && Current(l.book, pol)
    ensures var i := l.shardOf(key);
      Structured(l.(shards := l.shards[i := Written(l.shards[i], key, r, pol, l.next)], next := l.next + 1,
                    book := Stamped(l.book, key, pol, r.expiresAt.Some?), view := l.view[key := r]))
  {
    hide Agrees, Faithful, Written, Stamped;
    var i := l.shardOf(key);
    WrittenGood(i, l.shards[i], l.shardOf, l.next, l.book, key, pol, r);
    WrittenStores(l.shards[i], key, r, pol, l.next);
    Rewritten(l, key, Written(l.shards[i], key, r, pol, l.next), r, pol);
  }

  lemma MutatedStructured(l: Layout, key: bytes, v: Value)
    requires Structured(l) && InLayout(l, key)
    ensures var i := l.shardOf(key);
      var sh := l.shards[i].(m := l.shards[i].m[key := l.shards[i].m[key].(value := v)]);
      Structured(l.(shards := l.shards[i := sh], view := l.view[key := l.view[key].(value := v)]))
  {
    hide Agrees, Faithful;
    var i := l.shardOf(key);
    var sh := l.shards[i].(m := l.shards[i].m[key := l.shards[i].m[key].(value := v)]);
    assert Good(i, l.shards[i], l.shardOf, l.next, l.book);
    MutatedKeeps(l.shards[i], key, v, l.next, l.book);
    AllGoodUpdate(l, i, sh);
    ViewsUpdate(l, key, sh);
  }

  ghost function Sizes(view: map<bytes, Rec>): map<bytes, nat>
  {
    map k | k in view :: Footprint(k, view[k].value)
  }

  /** The sum of the booked sizes of everything stored. */
  ghost function Total(view: map<bytes, Rec>): nat { Sum(Sizes(view)) }

  ghost function SizeAt(view: map<bytes, Rec>, k: bytes): nat
  {
    if k in view then Footprint(k, view[k].value) else 0
  }

  lemma TotalPut(view: map<bytes, Rec>, k: bytes, r: Rec)
    ensures Total(view[k := r]) == Total(view) - SizeAt(view, k) + Footprint(k, r.value)
  {
    var n := Footprint(k, r.value);
    assert Sizes(view[k := r]) == Sizes(view)[k := n];
    SumPut(Sizes(view), k, n);
    SumDrop(Sizes(view), k);
  }

  lemma TotalDrop(view: map<bytes, Rec>, k: bytes)
    ensures Total(view - {k}) == Total(view) - SizeAt(view, k)
  {
    assert Sizes(view - {k}) == Sizes(view) - {k};
    SumDrop(Sizes(view), k);
  }

  lemma EmptyTotal()
    ensures Total(map[]) == 0
  {
    assert Sizes(map[]) == map[];
  }

  lemma SameSize(view: map<bytes, Rec>, other: map<bytes, Rec>, k: bytes)
    requires k in view && k in other && view[k] == other[k]
    ensures SizeAt(view, k) == SizeAt(other, k)
  {
  }

  lemma TotalAtLeast(view: map<bytes, Rec>, k: bytes)
    ensures SizeAt(view, k) <= Total(view)
  {
    TotalDrop(view, k);
  }

  function NonNegative(n: int): nat { if n < 0 then 0 else n }

  function IsExpired(r: Rec, now: int): bool { r.expiresAt.Some? && now > r.expiresAt.value }

  function ListOf(sh: Shard, volatile: bool): Index { if volatile then sh.vol else sh.all }

  /** No victim to be had from a recency list. */
  predicate Stuck(l: Index, avoid: bytes)
  {
    l.nodes == [] || (avoid != [] && Tail(l) == avoid)
  }

  ghost predicate StuckAt(shards: seq<Shard>, volatile: bool, avoid: bytes, pos: nat)
    requires |shards| == NUM_SHARDS
  {
    Stuck(ListOf(shards[pos % NUM_SHARDS], volatile), avoid)
  }

  /** The key at the end of the first list, from the cursor on, that has one to offer. */
  ghost predicate NextInLine(shards: seq<Shard>, cursor: nat, volatile: bool, avoid: bytes, key: bytes)
  {
    |shards| == NUM_SHARDS &&
    exists p :: cursor <= p < cursor + 2 * NUM_SHARDS && FirstAt(shards, cursor, volatile, avoid, key, p)
  }

  ghost predicate FirstAt(shards: seq<Shard>, cursor: nat, volatile: bool, avoid: bytes, key: bytes, p: nat)
    requires |shards| == NUM_SHARDS
  {
    && !StuckAt(shards, volatile, avoid, p) && Tail(ListOf(shards[p % NUM_SHARDS], volatile)) == key
    && forall q :: cursor <= q < p ==> StuckAt(shards, volatile, avoid, q)
  }

  /** There is only one such key. */
  lemma OneNext(shards: seq<Shard>, cursor: nat, volatile: bool, avoid: bytes, key: bytes, other: bytes)
    requires NextInLine(shards, cursor, volatile, avoid, key) && NextInLine(shards, cursor, volatile, avoid, other)
    ensures key == other
  {
    var p :| cursor <= p < cursor + 2 * NUM_SHARDS && FirstAt(shards, cursor, volatile, avoid, key, p);
    var q :| cursor <= q < cursor + 2 * NUM_SHARDS && FirstAt(shards, cursor, volatile, avoid, other, q);
  }

  /** The cursor is a 32-bit counter; its wrap-around does not disturb the shard it points at. */
  lemma CursorWraps(c: nat, a: nat)
    ensures (c + a) % UINT32 % NUM_SHARDS == (c + a) % NUM_SHARDS
    ensures ((c + a) % UINT32 + 1) % UINT32 == (c + (a + 1)) % UINT32
  {
    TurnsFit(c + a);
    NextTurn(c + a);
  }

  lemma TurnsFit(x: nat)
    ensures x % UINT32 % NUM_SHARDS == x % NUM_SHARDS
  {
    var q, r := x / UINT32, x % UINT32;
    var q2, r2 := r / NUM_SHARDS, r % NUM_SHARDS;
    assert x == NUM_SHARDS * (0x100_0000 * q + q2) + r2;
  }

  lemma NextTurn(x: nat)
    ensures (x % UINT32 + 1) % UINT32 == (x + 1) % UINT32
  {
    var q := x / UINT32;
    assert x + 1 == UINT32 * q + (x % UINT32 + 1);
  }

  /** From any position the cursor reaches every shard within one turn. */
  lemma CursorReaches(c: nat, i: nat) returns (a: nat)
    requires i < NUM_SHARDS
    ensures a < NUM_SHARDS && (c + a) % NUM_SHARDS == i
  {
    a := (i - c) % NUM_SHARDS;
  }

  /** Positions less than one turn apart are different shards. */
  lemma SamePlace(p: nat, q: nat)
    requires q < p < q + NUM_SHARDS
    ensures p % NUM_SHARDS != q % NUM_SHARDS
  {
  }

  /** The element pointer an entry keeps for a list. */
  function Pointer(e: Entry, volatile: bool): Option<nat> { if volatile then e.vol else e.all }

  /** Stamps moved only for some keys, and only forward; no key lost one. */
  ghost predicate Restamped(b: Book, c: Book, keys: set<bytes>)
  {
    && b.clock <= c.clock
    && Advanced(b.allAt, c.allAt, b.clock, c.clock, keys)
    && Advanced(b.volAt, c.volAt, b.clock, c.clock, keys)
  }

  ghost predicate Advanced(at: map<bytes, nat>, to: map<bytes, nat>, from: nat, clock: nat, keys: set<bytes>)
  {
    && (forall k :: k in at ==> k in to)
    && (forall k :: k in to ==> (k in at && to[k] == at[k]) || (k in keys && from <= to[k] < clock))
  }

  lemma StampedRestamps(b: Book, key: bytes, pol: Policy, expires: bool)
    ensures Restamped(b, Stamped(b, key, pol, expires), {key})
  {
  }

  lemma SameRestamps(b: Book, keys: set<bytes>)
    ensures Restamped(b, b, keys)
  {
  }

  lemma RestampedTrans(b: Book, c: Book, d: Book, keys: set<bytes>, more: set<bytes>)
    requires Restamped(b, c, keys) && Restamped(c, d, more)
    ensures Restamped(b, d, keys + more)
  {
    AdvancedTrans(b.allAt, c.allAt, d.allAt, b.clock, c.clock, d.clock, keys, more);
    AdvancedTrans(b.volAt, c.volAt, d.volAt, b.clock, c.clock, d.clock, keys, more);
  }

  lemma AdvancedTrans(x: map<bytes, nat>, y: map<bytes, nat>, z: map<bytes, nat>,
                      b: nat, c: nat, d: nat, keys: set<bytes>, more: set<bytes>)
    requires b <= c <= d && Advanced(x, y, b, c, keys) && Advanced(y, z, c, d, more)
    ensures Advanced(x, z, b, d, keys + more)
  {
  }

  /** Under its policy the key has a stamp from after `clock`. */
  predicate Newer(b: Book, key: bytes, pol: Policy, expires: bool, clock: nat)
  {
    match pol
    case AllKeysLru => key in b.allAt && b.allAt[key] >= clock
    case VolatileLru => expires ==> key in b.volAt && b.volAt[key] >= clock
    case _ => true
  }

  function Stamps(b: Book, volatile: bool): map<bytes, nat> { if volatile then b.volAt else b.allAt }

  /** The last node of a complete list is the key touched longest ago. */
  lemma TailOldest(sh: Shard, next: nat, b: Book, k: bytes)
    requires Agrees(sh, next) && Faithful(sh, b) && b.everAll && k in sh.m
    ensures sh.all.nodes != [] && k in b.allAt && Tail(sh.all) in b.allAt && b.allAt[Tail(sh.all)] <= b.allAt[k]
  {
    assert Node(sh.all.elems[k], k) in sh.all.nodes;
    var j :| 0 <= j < |sh.all.nodes| && sh.all.nodes[j] == Node(sh.all.elems[k], k);
  }

  /** The key an eviction would take from a shard is stored there, and expires if its list is the
      volatile one. */
  lemma VictimStored(sh: Shard, next: nat, volatile: bool)
    requires Agrees(sh, next)
    ensures var l := ListOf(sh, volatile);
      l.nodes != [] ==> Tail(l) in sh.m && (volatile ==> sh.m[Tail(l)].expiresAt.Some?)
  {
    var l := ListOf(sh, volatile);
    if l.nodes != [] { TailIndexed(l, next); }
  }

  class Store {
    const shardOf: bytes -> nat
    var shards: seq<Shard>
    var nextId: nat
    var mem: int
    var policy: Policy
    var maxMem: nat
    var cursor: nat
    var watch: map<bytes, nat>
    ghost var view: map<bytes, Rec>
    ghost var book: Book
    ghost var popped: nat
    ghost var clean: bool

    constructor (shardOf: bytes -> nat, policy: Policy, maxMem: nat)
      requires forall k :: shardOf(k) < NUM_SHARDS
      ensures Valid() && view == map[] && mem == 0 && clean && popped == 0
      ensures this.shardOf == shardOf && this.policy == policy && this.maxMem == maxMem
      ensures book.everAll == (policy == AllKeysLru) && book.everVol == (policy == VolatileLru)
    {
      this.shardOf, this.policy, this.maxMem := shardOf, policy, maxMem;
      shards := seq(NUM_SHARDS, _ => EMPTY_SHARD);
      nextId, mem, cursor, watch := 0, 0, 0, map[];
      view, book, popped, clean := map[], Book(map[], map[], 0, policy == AllKeysLru, policy == VolatileLru), 0, true;
    }

    ghost predicate Structure()
      reads this
    {
      Structured(Now()) && Current(book, policy)
    }

    ghost function Now(): Layout
      reads this
    {
      Layout(shards, shardOf, nextId, book, view)
    }

    /** As long as no increment met an expired entry, the counter is the booked size of everything
        plus 32 bytes for each list element removed in place. */
    ghost predicate Booked()
      reads this
    {
      mem >= 0 && cursor < UINT32 && (clean ==> mem == Total(view) + PER_ELEMENT * popped)
    }

    ghost predicate Valid()
      reads this
    {
      Structure() && Booked()
    }

    method AddMem(delta: int)
      modifies this`mem
      ensures mem == if delta == 0 then old(mem) else NonNegative(old(mem) + delta)
    {
      if delta == 0 { return; }
      mem := mem + delta;
      if mem < 0 { mem := 0; }
    }

    method BumpWatchKey(key: bytes)
      modifies this`watch
      ensures watch == Bumped(old(watch), key)
    {
      var v := if key in watch then watch[key] else 0;
      watch := watch[key := (v + 1) % UINT64_SIZE];
    }

    /** One key left its shard's map, and no other shard changed. */
    twostate predicate LeavesShard(key: bytes)
      reads this
    {
      var i := shardOf(key);
      && i < |old(shards)| == |shards| && shards[i].m == old(shards)[i].m - {key}
      && forall j :: 0 <= j < |shards| && j != i ==> shards[j] == old(shards)[j]
    }

    /** Takes a key out of the map, the lists and the counter. */
    method Unstore(key: bytes)
      requires Valid() && key in view
      modifies this`shards, this`view, this`mem
      ensures Valid() && view == old(view) - {key} && LeavesShard(key)
      ensures mem == NonNegative(old(mem) - SizeAt(old(view), key))
      ensures clean ==> mem == old(mem) - SizeAt(old(view), key)
    {
      hide AllGood, Total, Footprint;
      assert Seen(key, view, shards, shardOf);
      var i := shardOf(key);
      var n := EstimateMem(key, shards[i].m[key].value);
      TotalDrop(view, key);
      PurgedStructured(Now(), key);
      shards := shards[i := Purged(shards[i], key)];
      view := view - {key};
      AddMem(-n);
    }

    /** Removes an entry and tells the watchers. */
    method Purge(key: bytes)
      requires Valid() && key in view
      modifies this`shards, this`view, this`mem, this`watch
      ensures Valid() && view == old(view) - {key} && LeavesShard(key)
      ensures mem == NonNegative(old(mem) - SizeAt(old(view), key))
      ensures clean ==> mem == old(mem) - SizeAt(old(view), key)
      ensures watch == Bumped(old(watch), key)
    {
      hide Structured, Total, Footprint;
      Unstore(key);
      BumpWatchKey(key);
    }

    /** No policy came or went. */
    twostate predicate SameHistory()
      reads this
    {
      book.everAll == old(book.everAll) && book.everVol == old(book.everVol)
    }

    /** A stored key is at the head of the list its policy keeps for it. */
    ghost predicate Front(key: bytes)
      reads this
    {
      key in view && shardOf(key) < |shards| &&
      InFront(shards[shardOf(key)], key, policy, view[key].expiresAt.Some?)
    }

    lemma TouchFront(key: bytes)
      requires Structure() && key in view
      ensures shardOf(key) < |shards| && key in shards[shardOf(key)].m
      ensures InFront(Touched(shards[shardOf(key)], key, policy, nextId), key, policy, view[key].expiresAt.Some?)
    {
      hide Agrees, Faithful, Touched, InFront;
      assert Seen(key, view, shards, shardOf);
      assert Good(shardOf(key), shards[shardOf(key)], shardOf, nextId, book);
      TouchedInFront(shards[shardOf(key)], key, policy, nextId);
    }

    lemma PlaceFront(key: bytes, r: Rec)
      requires Structure()
      ensures shardOf(key) < |shards|
      ensures InFront(Written(shards[shardOf(key)], key, r, policy, nextId), key, policy, r.expiresAt.Some?)
    {
      hide Agrees, Faithful, Touched, InFront;
      var i := shardOf(key);
      assert Seen(key, view, shards, shardOf);
      assert Good(i, shards[i], shardOf, nextId, book);
      ReplacedAgrees(shards[i], key, r.value, r.expiresAt, nextId);
      TouchedInFront(Replaced(shards[i], key, r.value, r.expiresAt), key, policy, nextId);
    }

    /** Records an access. */
    method Touch(key: bytes)
      requires Valid() && key in view
      modifies this`shards, this`nextId, this`book
      ensures Valid() && Front(key)
      ensures book == Stamped(old(book), key, policy, view[key].expiresAt.Some?)
    {
      hide AllGood, Total;
      assert Seen(key, view, shards, shardOf);
      var i := shardOf(key);
      TouchFront(key);
      TouchedStructured(Now(), key, policy);
      shards := shards[i := Touched(shards[i], key, policy, nextId)];
      nextId := nextId + 1;
      book := Stamped(book, key, policy, view[key].expiresAt.Some?);
    }

    /** The entry stored under a key. */
    ghost predicate Holds(key: bytes, e: Entry)
      reads this
    {
      shardOf(key) < |shards| && key in shards[shardOf(key)].m && shards[shardOf(key)].m[key] == e
    }

    /** An entry that is no longer, or not yet, in any shard. */
    ghost predicate Loose(key: bytes, e: Entry)
      reads this
    {
      key !in view && e.all.None? && e.vol.None?
    }

    /** Puts a new entry under a key; the lists follow. */
    method Place(key: bytes, r: Rec)
      requires Structure()
      modifies this`shards, this`nextId, this`book, this`view
      ensures Structure() && view == old(view)[key := r] && SameHistory() && Front(key)
      ensures book == Stamped(old(book), key, policy, r.expiresAt.Some?)
    {
      hide AllGood;
      assert Seen(key, view, shards, shardOf);
      var i := shardOf(key);
      PlaceFront(key, r);
      WrittenStructured(Now(), key, policy, r);
      shards := shards[i := Written(shards[i], key, r, policy, nextId)];
      nextId := nextId + 1;
      book := Stamped(book, key, policy, r.expiresAt.Some?);
      view := view[key := r];
    }

    lemma HeldOrLoose(key: bytes, e: Entry)
      requires Structure() && (Holds(key, e) || Loose(key, e))
      ensures Holds(key, e) <==> key in view
      ensures Holds(key, e) ==> view[key] == RecOf(e)
    {
      hide AllGood;
      assert Seen(key, view, shards, shardOf);
    }

    /** Replaces `prev` under a key by a new entry. A `prev` that had already been purged is taken
        off the counter a second time. */
    method Replace(key: bytes, prev: Option<Entry>, r: Rec)
      requires Valid()
      requires prev.None? ==> key !in view
      requires prev.Some? ==> Holds(key, prev.value) || Loose(key, prev.value)
      modifies this`shards, this`nextId, this`book, this`view, this`mem, this`watch, this`clean
      ensures Valid() && view == old(view)[key := r] && SameHistory()
      ensures book == Stamped(old(book), key, policy, r.expiresAt.Some?)
      ensures clean == (old(clean) && (prev.None? || key in old(view)))
      ensures clean ==> mem == old(mem) - SizeAt(old(view), key) + Footprint(key, r.value)
      ensures prev.Some? ==> mem == NonNegative(old(mem) - Footprint(key, prev.value.value)) + Footprint(key, r.value)
      ensures watch == Bumped(old(watch), key)
    {
      hide Structured, Total, Footprint, Store.Front;
      TotalPut(view, key, r);
      TotalAtLeast(view, key);
      if prev.Some? {
        HeldOrLoose(key, prev.value);
        var n := EstimateMem(key, prev.value.value);
        AddMem(-n);
        clean := clean && key in view;
      }
      Place(key, r);
      var n := EstimateMem(key, r.value);
      AddMem(n);
      BumpWatchKey(key);
    }

    /** Shortens the list of an entry in place; the counter is not told. */
    method ShrinkList(key: bytes, l: items)
      requires Valid() && key in view && view[key].value.List? && |l| <= |view[key].value.list|
      modifies this`shards, this`view, this`popped
      ensures Valid() && view == old(view)[key := old(view)[key].(value := List(l))]
      ensures popped == old(popped) + |old(view)[key].value.list| - |l|
    {
      hide AllGood, Total;
      assert Seen(key, view, shards, shardOf);
      var i := shardOf(key);
      var e := shards[i].m[key];
      TotalPut(view, key, view[key].(value := List(l)));
      MutatedStructured(Now(), key, List(l));
      popped := popped + |e.value.list| - |l|;
      shards := shards[i := shards[i].(m := shards[i].m[key := e.(value := List(l))])];
      view := view[key := view[key].(value := List(l))];
    }

    // ----- eviction -----------------------------------------------------------------------

    /** One key other than `avoid` is gone, and nothing else happened. */
    twostate predicate Evicted(victim: bytes, avoid: bytes)
      reads this
    {
      && victim in old(view) && (avoid != [] ==> victim != avoid)
      && view == old(view) - {victim}
      && mem == NonNegative(old(mem) - SizeAt(old(view), victim))
      && (clean ==> mem == old(mem) - SizeAt(old(view), victim))
    }

    /** The key ended the list of its shard. */
    twostate predicate WasTail(victim: bytes, volatile: bool)
      reads this
    {
      shardOf(victim) < |old(shards)| &&
      var l := ListOf(old(shards)[shardOf(victim)], volatile);
      l.nodes != [] && Tail(l) == victim
    }

    twostate predicate Untouched()
      reads this
    {
      view == old(view) && mem == old(mem) && shards == old(shards) && watch == old(watch)
    }

    /** Takes the tail of the first list, from the cursor on, that offers one. It gives up only
        when no shard does, and under a policy that was always allkeys-lru the victim is the key of
        its shard touched longest ago. */
    method EvictLru(volatile: bool, avoid: bytes) returns (ok: bool, ghost victim: bytes)
      requires Valid()
      modifies this`shards, this`view, this`mem, this`watch, this`cursor
      ensures Valid()
      ensures ok ==> Evicted(victim, avoid) && (volatile ==> old(view)[victim].expiresAt.Some?)
      ensures ok ==> WasTail(victim, volatile) && NextInLine(old(shards), old(cursor), volatile, avoid, victim)
      ensures ok && !volatile && book.everAll ==>
                forall k :: k in old(view) && shardOf(k) == shardOf(victim) ==>
                  k in book.allAt && victim in book.allAt && book.allAt[victim] <= book.allAt[k]
      ensures !ok ==> Untouched()
      ensures !ok ==> forall i :: 0 <= i < |shards| ==>
                        Stuck(ListOf(shards[i], volatile), avoid)
    {
      hide Agrees, Faithful, Total, Footprint;
      victim := [];
      ghost var c := cursor;
      for attempt := 0 to 2 * NUM_SHARDS
        invariant Valid() && Untouched()
        invariant cursor == (c + attempt) % UINT32
        invariant forall p :: c <= p < c + attempt ==> StuckAt(shards, volatile, avoid, p)
      {
        CursorWraps(c, attempt);
        var si := cursor % NUM_SHARDS;
        cursor := (cursor + 1) % UINT32;
        var l := ListOf(shards[si], volatile);
        assert StuckAt(shards, volatile, avoid, c + attempt) <==> Stuck(l, avoid);
        if l.nodes == [] { continue; }
        var v := Tail(l);
        if avoid != [] && v == avoid { continue; }
        assert Good(si, shards[si], shardOf, nextId, book);
        VictimStored(shards[si], nextId, volatile);
        assert Seen(v, view, shards, shardOf);
        assert !volatile && book.everAll ==>
            forall k :: k in view && shardOf(k) == si ==>
              k in book.allAt && v in book.allAt && book.allAt[v] <= book.allAt[k] by {
          forall k | !volatile && book.everAll && k in view && shardOf(k) == si
            ensures k in book.allAt && v in book.allAt && book.allAt[v] <= book.allAt[k]
          {
            assert Seen(k, view, shards, shardOf);
            TailOldest(shards[si], nextId, book, k);
          }
        }
        victim := v;
        assert FirstAt(shards, c, volatile, avoid, v, c + attempt);
        Purge(v);
        return true, victim;
      }
      forall i | 0 <= i < |shards| ensures Stuck(ListOf(shards[i], volatile), avoid) {
        var a := CursorReaches(c, i);
        assert StuckAt(shards, volatile, avoid, c + a);
      }
      ok := false;
    }

    /** The keys of a shard that a random eviction may draw from. */
    static function Candidates(sh: Shard, volatile: bool): set<bytes>
    {
      set k | k in sh.m && (volatile ==> sh.m[k].expiresAt.Some?)
    }

    /** Draws shards and keys at random, up to 2048 times. */
    method EvictRandom(volatile: bool, avoid: bytes) returns (ok: bool, ghost victim: bytes)
      requires Valid()
      modifies this`shards, this`view, this`mem, this`watch
      ensures Valid()
      ensures ok ==> Evicted(victim, avoid) && (volatile ==> old(view)[victim].expiresAt.Some?)
      ensures !ok ==> Untouched()
    {
      hide Good, Total, Footprint;
      victim := [];
      for tries := 0 to 8 * NUM_SHARDS
        invariant Valid() && Untouched()
      {
        var si :| 0 <= si < NUM_SHARDS;
        var cand := Candidates(shards[si], volatile);
        if cand == {} { continue; }
        var v :| v in cand;
        if avoid != [] && v == avoid { continue; }
        assert Good(si, shards[si], shardOf, nextId, book);
        InShard(si, v);
        victim := v;
        Purge(v);
        return true, victim;
      }
      ok := false;
    }

    /** A key found in a shard belongs there. */
    lemma InShard(i: nat, k: bytes)
      requires Structure() && i < |shards| && k in shards[i].m
      ensures shardOf(k) == i && k in view && view[k] == RecOf(shards[i].m[k])
    {
      hide Agrees, Faithful;
      assert Good(i, shards[i], shardOf, nextId, book);
      assert Seen(k, view, shards, shardOf);
    }

    /** A key the soonest-to-expire policy may take. */
    static predicate Expiring(sh: Shard, k: bytes, avoid: bytes)
    {
      k in sh.m && sh.m[k].expiresAt.Some? && !(avoid != [] && k == avoid)
    }

    /** The best candidate so far is an expiring key of its shard, and no key seen expires sooner. */
    static ghost predicate Best(shards: seq<Shard>, avoid: bytes, best: Option<(bytes, nat)>, seen: nat, part: set<bytes>)
      requires seen <= |shards|
    {
      && (best.Some? ==> best.value.1 < |shards| && Expiring(shards[best.value.1], best.value.0, avoid))
      && (forall i, k {:trigger Expiring(shards[i], k, avoid)} ::
            0 <= i < |shards| && Expiring(shards[i], k, avoid) && (i < seen || (i == seen && k in part)) ==>
            best.Some? && shards[best.value.1].m[best.value.0].expiresAt.value <= shards[i].m[k].expiresAt.value)
    }

    /** Scans one shard for a key that expires sooner than the best so far. */
    static method ScanShard(shards: seq<Shard>, si: nat, avoid: bytes, sofar: Option<(bytes, nat)>)
      returns (best: Option<(bytes, nat)>)
      requires si < |shards| && Best(shards, avoid, sofar, si, {})
      ensures Best(shards, avoid, best, si + 1, {})
    {
      best := sofar;
      var sh := shards[si];
      var todo := sh.m.Keys;
      while todo != {}
        invariant todo <= sh.m.Keys
        invariant Best(shards, avoid, best, si, sh.m.Keys - todo)
      {
        var k :| k in todo;
        todo := todo - {k};
        var e := sh.m[k];
        if e.expiresAt.Some? && !(avoid != [] && k == avoid) {
          if best.None? || e.expiresAt.value < shards[best.value.1].m[best.value.0].expiresAt.value {
            best := Some((k, si));
          }
        }
      }
    }

    /** Takes the key that expires first, over all shards; it gives up only when no key expires. */
    method EvictVolatileTtl(avoid: bytes) returns (ok: bool, ghost victim: bytes)
      requires Valid()
      modifies this`shards, this`view, this`mem, this`watch
      ensures Valid()
      ensures ok ==> Evicted(victim, avoid) && old(view)[victim].expiresAt.Some?
      ensures ok ==> forall k :: k in old(view) && old(view)[k].expiresAt.Some? && !(avoid != [] && k == avoid) ==>
                       old(view)[victim].expiresAt.value <= old(view)[k].expiresAt.value
      ensures !ok ==> Untouched()
      ensures !ok ==> forall k :: k in view && view[k].expiresAt.Some? ==> avoid != [] && k == avoid
    {
      hide Good, Total, Footprint;
      victim := [];
      var best: Option<(bytes, nat)> := None;
      for si := 0 to NUM_SHARDS
        invariant Valid() && Untouched()
        invariant Best(shards, avoid, best, si, {})
      {
        best := ScanShard(shards, si, avoid, best);
      }
      forall k | k in view && view[k].expiresAt.Some? && !(avoid != [] && k == avoid)
        ensures best.Some?
        ensures shards[best.value.1].m[best.value.0].expiresAt.value <= view[k].expiresAt.value
      {
        assert Seen(k, view, shards, shardOf);
        assert Expiring(shards[shardOf(k)], k, avoid);
      }
      if best.None? { return false, victim; }
      var v := best.value.0;
      InShard(best.value.1, v);
      victim := v;
      Purge(v);
      ok := true;
    }

    /** Under a policy that was always allkeys-lru, a shard with a key in it has a victim. */
    lemma HasVictim(key: bytes)
      requires Structure() && book.everAll && key in view
      ensures shardOf(key) < |shards| && !Stuck(shards[shardOf(key)].all, [])
    {
      assert Seen(key, view, shards, shardOf);
      assert Good(shardOf(key), shards[shardOf(key)], shardOf, nextId, book);
      TailOldest(shards[shardOf(key)], nextId, book, key);
    }

    /** Under a policy that was always allkeys-lru, the only key there is goes next. */
    lemma SoleNext(key: bytes)
      requires Valid() && book.everAll && view.Keys == {key}
      ensures NextInLine(shards, cursor, false, [], key)
    {
      hide Agrees, Faithful, Total;
      var i := shardOf(key);
      HasVictim(key);
      forall j | 0 <= j < NUM_SHARDS ensures shards[j].all.nodes != [] ==> j == i && Tail(shards[j].all) == key {
        assert Good(j, shards[j], shardOf, nextId, book);
        VictimStored(shards[j], nextId, false);
        if shards[j].all.nodes != [] { InShard(j, Tail(shards[j].all)); }
      }
      var a := CursorReaches(cursor, i);
      forall q | cursor <= q < cursor + a ensures StuckAt(shards, false, [], q) {
        SamePlace(cursor + a, q);
      }
      assert FirstAt(shards, cursor, false, [], key, cursor + a);
    }

    /** The policy has nothing to offer: no list, or no expiring key, apart from the one to avoid.
        (Random eviction may give up early.) */
    ghost predicate NothingLeft(avoid: bytes)
      reads this
    {
      match policy
      case AllKeysLru => forall i :: 0 <= i < |shards| ==> Stuck(ListOf(shards[i], false), avoid)
      case VolatileLru => forall i :: 0 <= i < |shards| ==> Stuck(ListOf(shards[i], true), avoid)
      case VolatileTtl => forall k :: k in view && view[k].expiresAt.Some? ==> avoid != [] && k == avoid
      case _ => true
    }

    /** Why a write may be refused for lack of memory: it would not fit, and there is nothing left
        to evict but the key being written. */
    ghost predicate RoomRefused(key: bytes, delta: int)
      reads this
    {
      maxMem != 0 && mem + delta > Limit() && NothingLeft(key)
    }

    /** The policy in force may take the key. */
    ghost predicate Evictable(key: bytes)
      reads this
    {
      key in view &&
      match policy
      case NoEviction => false
      case AllKeysLru => true
      case AllKeysRandom => true
      case _ => view[key].expiresAt.Some?
    }

    /** One eviction, as the policy has it. */
    method EvictFromStore(avoid: bytes) returns (ok: bool, ghost victim: bytes)
      requires Valid()
      modifies this`shards, this`view, this`mem, this`watch, this`cursor
      ensures Valid()
      ensures ok ==> Evicted(victim, avoid) && old(Evictable(victim))
      ensures ok && policy == AllKeysLru ==> NextInLine(old(shards), old(cursor), false, avoid, victim)
      ensures !ok ==> Untouched()
      ensures !ok ==> NothingLeft(avoid)
      ensures mem <= old(mem)
    {
      hide Structured, Total, Footprint, NextInLine;
      match policy {
        case NoEviction => ok, victim := false, [];
        case AllKeysLru => ok, victim := EvictLru(false, avoid);
        case VolatileLru => ok, victim := EvictLru(true, avoid);
        case AllKeysRandom => ok, victim := EvictRandom(false, avoid);
        case VolatileRandom => ok, victim := EvictRandom(true, avoid);
        case VolatileTtl => ok, victim := EvictVolatileTtl(avoid);
      }
    }

    function Limit(): int
      reads this
    {
      Signed(maxMem)
    }

    /** The key being written may be evicted to make room for itself: the empty key is also the
        mark for "no key to avoid". */
    ghost predicate Exposed(key: bytes)
      reads this
    {
      key == [] && Evictable(key)
    }

    /** Nothing but evictions happened, and none of them hit `key` unless it is the empty key. */
    twostate predicate OnlyEvictions(key: bytes)
      reads this
    {
      && (forall k :: k in view ==> k in old(view) && view[k] == old(view)[k])
      && (key in old(view) && key !in view ==> old(Exposed(key)))
      && mem <= old(mem)
    }

    /** What the first eviction took, and that it was the only one if it made enough room. */
    twostate predicate FirstTaken(key: bytes, delta: int, first: bytes)
      reads this
    {
      && first in old(view)
      && (policy == AllKeysLru ==> NextInLine(old(shards), old(cursor), false, key, first))
      && var rest := NonNegative(old(mem) - SizeAt(old(view), first));
         (rest + delta <= Limit() ==> view == old(view) - {first} && mem == rest)
    }

    /** Without the last eviction there was not enough room. */
    twostate predicate NoneTooMany(delta: int)
      reads this
    {
      exists v :: v in old(view) && v !in view && mem + SizeAt(old(view), v) + delta > Limit()
    }

    /** The recency lists as an index of the stored keys: the nodes of a list have distinct ids and
        keys, in order of last touch; the index map holds exactly their keys, each with the id of
        its node; and the pointer of every stored entry is what the index map says. */
    lemma RecencyExact(i: nat, volatile: bool)
      requires Valid() && i < NUM_SHARDS
      ensures |shards| == NUM_SHARDS
      ensures var l := ListOf(shards[i], volatile);
        forall k :: k in l.elems <==> exists n :: n in l.nodes && n.key == k
      ensures var l := ListOf(shards[i], volatile);
        forall n :: n in l.nodes ==> n.key in l.elems && l.elems[n.key] == n.id && n.key in shards[i].m
      ensures var l := ListOf(shards[i], volatile);
        forall k :: k in shards[i].m ==>
          Pointer(shards[i].m[k], volatile) == if k in l.elems then Some(l.elems[k]) else None
      ensures var l, at := ListOf(shards[i], volatile), Stamps(book, volatile);
        forall a, b :: 0 <= a < b < |l.nodes| ==>
          l.nodes[a].key != l.nodes[b].key && l.nodes[a].id != l.nodes[b].id
          && l.nodes[a].key in at && l.nodes[b].key in at && at[l.nodes[a].key] > at[l.nodes[b].key]
    {
      assert Good(i, shards[i], shardOf, nextId, book);
      var l := ListOf(shards[i], volatile);
      forall k ensures k in l.elems <==> exists n :: n in l.nodes && n.key == k {
        OnList(l, nextId, k);
      }
    }

    /** Under a policy that was always allkeys-lru the list holds exactly the shard's keys, under
        one that was always volatile-lru exactly the keys that expire. */
    lemma RecencyComplete(i: nat)
      requires Valid() && i < NUM_SHARDS
      ensures |shards| == NUM_SHARDS
      ensures book.everAll ==> forall k :: k in shards[i].m <==> exists n :: n in shards[i].all.nodes && n.key == k
      ensures book.everVol ==> forall k :: k in shards[i].m && shards[i].m[k].expiresAt.Some? <==>
                                           exists n :: n in shards[i].vol.nodes && n.key == k
    {
      assert Good(i, shards[i], shardOf, nextId, book);
      RecencyExact(i, false);
      RecencyExact(i, true);
    }

    /** Evicts until `delta` more bytes fit. Every round removes a key, so it ends. */
    method MakeRoom(key: bytes, delta: int) returns (evicted: bool, ok: bool, ghost first: bytes)
      requires Valid() && maxMem != 0
      modifies this`shards, this`view, this`mem, this`watch, this`cursor
      ensures Valid() && OnlyEvictions(key)
      ensures !evicted ==> ok && Untouched()
      ensures evicted <==> old(mem) + delta > Limit()
      ensures ok ==> mem + delta <= Limit()
      ensures evicted && ok ==> FirstTaken(key, delta, first) && NoneTooMany(delta)
      ensures !ok ==> RoomRefused(key, delta)
    {
      hide Store.Valid, Total, Footprint, Store.NothingLeft, NextInLine;
      first := [];
      evicted, ok := false, true;
      if mem + delta > Signed(maxMem) {
        evicted := true;
        ok, first := EvictFromStore(key);
        if !ok { return; }
        ok := MakeMoreRoom(key, delta);
        assert first in old(view) && first !in view;
      }
    }

    /** The rounds after the first. */
    method MakeMoreRoom(key: bytes, delta: int) returns (ok: bool)
      requires Valid() && maxMem != 0
      modifies this`shards, this`view, this`mem, this`watch, this`cursor
      ensures Valid() && OnlyEvictions(key)
      ensures old(mem) + delta <= Limit() ==> ok && Untouched()
      ensures ok ==> mem + delta <= Limit()
      ensures ok && old(mem) + delta > Limit() ==> NoneTooMany(delta)
      ensures !ok ==> RoomRefused(key, delta)
    {
      hide Store.Valid, Total, Footprint, Store.NothingLeft, NextInLine, SizeAt;
      ok := true;
      while mem + delta > Signed(maxMem)
        invariant Valid() && OnlyEvictions(key)
        invariant old(mem) + delta <= Signed(maxMem) ==> Untouched()
        invariant mem + delta <= Signed(maxMem) && old(mem) + delta > Signed(maxMem) ==> NoneTooMany(delta)
        decreases |view|
      {
        ghost var was := view;
        ghost var victim;
        ok, victim := EvictFromStore(key);
        if !ok { return; }
        Smaller(was, victim);
        assert SizeAt(was, victim) == SizeAt(old(view), victim) by { SameSize(was, old(view), victim); }
        assert mem + delta <= Signed(maxMem) ==> NoneTooMany(delta) by {
          assert victim in old(view) && victim !in view;
        }
      }
      ok := true;
    }

    /** Makes room for `delta` more bytes, if there is a limit. */
    method EnsureMemory(key: bytes, delta: int) returns (evicted: bool, ok: bool)
      requires Valid()
      modifies this`shards, this`view, this`mem, this`watch, this`cursor
      ensures Valid() && OnlyEvictions(key)
      ensures !evicted ==> ok && Untouched()
      ensures evicted <==> Crowded(old(mem), delta)
      ensures ok && maxMem != 0 && delta > 0 ==> mem + delta <= Limit()
      ensures evicted && ok ==> NoneTooMany(delta)
      ensures ok && clean && old(Doomed(key, delta + SizeAt(view, key))) ==>
                key !in view && mem == old(mem) - SizeAt(old(view), key)
      ensures !ok ==> RoomRefused(key, delta)
    {
      hide Store.Valid, Total, Footprint, Store.NothingLeft, Store.NoneTooMany, NextInLine;
      if maxMem == 0 || delta <= 0 { return false, true; }
      if clean { CleanCovers(key); }
      ghost var first;
      evicted, ok, first := MakeRoom(key, delta);
      if evicted && ok && old(Doomed(key, delta + SizeAt(view, key))) {
        OneNext(old(shards), old(cursor), false, key, key, first);
      }
    }

    /** The one way a write exceeds its budget: the value being replaced may be evicted to make room
        for the new one, and is then counted on twice. */
    ghost predicate Risky(key: bytes, size: int)
      reads this
    {
      Exposed(key) && Crowded(mem, size - SizeAt(view, key))
    }

    /** It does so for certain if that value is the next to go, and then leaves room enough. */
    ghost predicate Doomed(key: bytes, size: int)
      reads this
    {
      && Risky(key, size) && policy == AllKeysLru && NextInLine(shards, cursor, false, [], key)
      && mem + size - 2 * SizeAt(view, key) <= Limit()
    }

    lemma CleanCovers(key: bytes)
      requires Valid() && clean
      ensures mem >= SizeAt(view, key)
    {
      hide Structured, Footprint;
      TotalAtLeast(view, key);
    }

    // ----- the two halves of every write --------------------------------------------------

    /** The live entry of a key; an expired one is purged on sight. */
    method Lookup(key: bytes, now: int) returns (e: Option<Entry>)
      requires Valid()
      modifies this`shards, this`view, this`mem, this`watch
      ensures Valid()
      ensures e.Some? <==> key in old(view) && !IsExpired(old(view)[key], now)
      ensures e.Some? ==> Untouched() && Holds(key, e.value) && RecOf(e.value) == view[key]
      ensures e.None? ==> view == old(view) - {key} && mem == NonNegative(old(mem) - SizeAt(old(view), key))
      ensures mem <= old(mem)
      ensures e.None? && clean ==> mem == old(mem) - SizeAt(old(view), key)
      ensures e.None? && key !in old(view) ==> Untouched()
      ensures e.None? ==> watch == if key in old(view) then Bumped(old(watch), key) else old(watch)
    {
      hide AllGood, Total, Footprint;
      assert Seen(key, view, shards, shardOf);
      var m := shards[shardOf(key)].m;
      if key !in m { return None; }
      if m[key].expiresAt.Some? && now > m[key].expiresAt.value {
        Purge(key);
        return None;
      }
      e := Some(m[key]);
    }

    /** Other keys are at most evicted, and without a memory limit not even that. */
    twostate predicate Spares(key: bytes)
      reads this
    {
      && policy == old(policy) && maxMem == old(maxMem) && SameHistory()
      && Restamped(old(book), book, {key})
      && (forall k :: k in view && k != key ==> k in old(view) && view[k] == old(view)[k])
      && (maxMem == 0 ==> forall k :: k in old(view) && k != key ==> k in view)
    }

    /** The write stayed within the budget, or used no more than there was. */
    twostate predicate WithinBudget()
      reads this
    {
      maxMem != 0 ==> mem <= Limit() || mem <= old(mem)
    }

    /** Makes room for a new value and stores it, replacing what the key then holds. `prev` is
        what the caller found: the entry stored, or one it has purged already. */
    method Commit(key: bytes, prev: Option<Entry>, r: Rec) returns (ok: bool)
      requires Valid()
      requires prev.None? ==> key !in view
      requires prev.Some? ==> Holds(key, prev.value) || Loose(key, prev.value)
      modifies this`shards, this`nextId, this`book, this`view, this`mem, this`watch, this`cursor, this`clean
      ensures Valid() && Spares(key)
      ensures ok ==> key in view && view[key] == r
      ensures !ok ==> clean == old(clean) && OnlyEvictions(key)
      ensures !ok ==> RoomRefused(key, Footprint(key, r.value) - SizeAt(old(view), key))
      ensures var evicted := Crowded(old(mem), Footprint(key, r.value) - SizeAt(old(view), key));
        && (ok ==> clean == (old(clean) && (evicted || prev.None? || key in old(view))))
        && (!ok ==> evicted) && (ok && !evicted ==> view == old(view)[key := r])
        && (ok && !evicted && prev.Some? ==>
              mem == NonNegative(old(mem) - Footprint(key, prev.value.value)) + Footprint(key, r.value))
      ensures book == if ok then Stamped(old(book), key, policy, r.expiresAt.Some?) else old(book)
      ensures ok && clean && !WithinBudget() ==>
                old(Risky(key, Footprint(key, r.value))) && mem <= Limit() + SizeAt(old(view), key)
      ensures ok && clean && old(Doomed(key, Footprint(key, r.value))) ==> !WithinBudget()
    {
      hide Store.Valid, Total, Footprint, Store.NothingLeft, NextInLine, Store.NoneTooMany, Restamped, Stamped;
      var newB := EstimateMem(key, r.value);
      var oldB := SizeBefore(key, prev);
      SameRestamps(book, {key});
      var evicted;
      evicted, ok := EnsureMemory(key, newB - oldB);
      if !ok { return; }
      StampedRestamps(book, key, policy, r.expiresAt.Some?);
      Overwrite(key, evicted, prev, r);
    }

    /** The booked size of what is still stored of `prev`. */
    method SizeBefore(key: bytes, prev: Option<Entry>) returns (n: int)
      requires Valid()
      requires prev.None? ==> key !in view
      requires prev.Some? ==> Holds(key, prev.value) || Loose(key, prev.value)
      ensures n == SizeAt(view, key)
    {
      hide Structured, Footprint;
      n := 0;
      Stored(key);
      if prev.Some? {
        HeldOrLoose(key, prev.value);
        if key in shards[shardOf(key)].m { n := EstimateMem(key, prev.value.value); }
      }
    }

    /** Stores the value over `prev`, or over what the key holds now if keys were evicted. */
    method Overwrite(key: bytes, evicted: bool, prev: Option<Entry>, r: Rec)
      requires Valid()
      requires evicted || (prev.None? ==> key !in view)
      requires evicted || (prev.Some? ==> Holds(key, prev.value) || Loose(key, prev.value))
      modifies this`shards, this`nextId, this`book, this`view, this`mem, this`watch, this`clean
      ensures Valid() && view == old(view)[key := r] && SameHistory()
      ensures book == Stamped(old(book), key, policy, r.expiresAt.Some?)
      ensures clean == (old(clean) && (evicted || prev.None? || key in old(view)))
      ensures clean ==> mem == old(mem) - SizeAt(old(view), key) + Footprint(key, r.value)
      ensures !evicted && prev.Some? ==>
                mem == NonNegative(old(mem) - Footprint(key, prev.value.value)) + Footprint(key, r.value)
    {
      hide Structured, Total, Footprint;
      var cur := prev;
      if evicted {
        Stored(key);
        cur := if key in shards[shardOf(key)].m then Some(shards[shardOf(key)].m[key]) else None;
      }
      Replace(key, cur, r);
    }

    /** More bytes do not fit without evicting. */
    ghost predicate Crowded(used: int, delta: int)
      reads this
    {
      maxMem != 0 && delta > 0 && used + delta > Limit()
    }

    /** A key is stored exactly when its shard has it. */
    lemma Stored(key: bytes)
      requires Structure()
      ensures shardOf(key) < |shards| && (key in view <==> key in shards[shardOf(key)].m)
      ensures key in view ==> view[key] == RecOf(shards[shardOf(key)].m[key])
    {
      hide AllGood;
      assert Seen(key, view, shards, shardOf);
    }

    method SetMaxMemory(n: nat)
      requires Valid()
      modifies this`maxMem
      ensures Valid() && maxMem == n
    {
      maxMem := n;
    }

    method SetPolicy(p: Policy)
      requires Valid()
      modifies this`policy, this`book
      ensures Valid() && policy == p
      ensures book == old(book).(everAll := old(book.everAll) && p == AllKeysLru,
                                 everVol := old(book.everVol) && p == VolatileLru)
    {
      hide Agrees, Total;
      policy := p;
      book := book.(everAll := book.everAll && p == AllKeysLru, everVol := book.everVol && p == VolatileLru);
      forall i | 0 <= i < NUM_SHARDS ensures Good(i, shards[i], shardOf, nextId, book) {
        assert Good(i, shards[i], shardOf, nextId, old(book));
      }
    }

    /** Empties every shard, key by key. */
    method FlushDB()
      requires Valid()
      modifies this`shards, this`view, this`mem, this`watch
      ensures Valid() && view == map[] && watch == map[]
      ensures clean ==> mem == PER_ELEMENT * popped
    {
      hide Good, Footprint, Total;
      for i := 0 to NUM_SHARDS
        invariant Valid() && forall j :: 0 <= j < i ==> shards[j].m == map[]
      {
        var todo := shards[i].m.Keys;
        while todo != {}
          invariant Valid() && todo == shards[i].m.Keys
          invariant forall j :: 0 <= j < i ==> shards[j].m == map[]
        {
          var k :| k in todo;
          InShard(i, k);
          Purge(k);
          todo := todo - {k};
        }
        assert shards[i].m == map[];
      }
      assert view == map[] by {
        forall k ensures k !in view { assert Seen(k, view, shards, shardOf); }
      }
      assert Total(view) == 0 by { EmptyTotal(); }
      watch := map[];
    }
  }
}
