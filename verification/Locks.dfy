/** The store's locks: one per shard and one for the watch versions. Every operation takes them
    in one order, so no interleaving of any number of threads gets stuck. */
module Locks {
  import opened Bytes
  import opened Keyspace

  /** Shard locks are numbered by shard; the watch lock comes after all of them. */
  const WATCH_LOCK: nat := NUM_SHARDS

  datatype LockOp = Acquire(l: nat) | Release(l: nat)

  /** A thread: the locks it holds and what it will still do to locks. */
  datatype Thread = Thread(held: set<nat>, todo: seq<LockOp>)

  // ----- what the operations do to locks --------------------------------------------------

  /** One critical section: shard locks taken in the listed order, the watch lock taken and
      released some number of times inside, then the shard locks released. */
  datatype Section = Section(shards: seq<nat>, bumps: nat)

  function Acquires(ls: seq<nat>): seq<LockOp>
  {
    if ls == [] then [] else [Acquire(ls[0])] + Acquires(ls[1..])
  }

  function Releases(ls: seq<nat>): seq<LockOp>
  {
    if ls == [] then [] else [Release(ls[0])] + Releases(ls[1..])
  }

  function Bumps(n: nat): seq<LockOp>
  {
    if n == 0 then [] else [Acquire(WATCH_LOCK), Release(WATCH_LOCK)] + Bumps(n - 1)
  }

  function SectionOps(s: Section): seq<LockOp>
  {
    Acquires(s.shards) + Bumps(s.bumps) + Releases(s.shards)
  }

  function Program(ss: seq<Section>): seq<LockOp>
  {
    if ss == [] then [] else SectionOps(ss[0]) + Program(ss[1..])
  }

  predicate Increasing(ls: seq<nat>)
  {
    forall i, j :: 0 <= i < j < |ls| ==> ls[i] < ls[j]
  }

  predicate GoodSection(s: Section)
  {
    Increasing(s.shards) && forall i :: 0 <= i < |s.shards| ==> s.shards[i] < NUM_SHARDS
  }

  /** One eviction probe: the shard under the cursor, locked, with some watch bumps inside. */
  datatype Visit = Visit(cursor: nat, bumps: nat)

  /** One pass of making room: eviction visits shards with the caller's lock released, then the
      caller takes its own shard again. */
  datatype Round = Round(evict: seq<Visit>, bumps: nat)

  /** The store's operations, by the keys they name. `SeveralKeys` is a rename, or an MSETNX
      refused at its first look; `MSetNXRefused` is one that finds no room, and so does not come
      back for its locks. */
  datatype Operation =
    | SingleKey(key: bytes, bumps: nat)
    | BudgetedWrite(key: bytes, bumps: nat, rounds: seq<Round>)
    | SeveralKeys(keys: seq<bytes>, bumps: nat)
    | MSetNX(keys: seq<bytes>, purges: nat, evict: seq<Visit>, writes: nat)
    | MSetNXRefused(keys: seq<bytes>, purges: nat, evict: seq<Visit>)
    | FlushDB(perShard: nat -> nat)
    | PruneWatch(keys: seq<bytes>)
    | WholeScan
    | ReadVersion

  /** A number put in its place in an increasing sequence, once. */
  function Insert(ls: seq<nat>, l: nat): seq<nat>
  {
    if ls == [] || l < ls[0] then [l] + ls
    else if l == ls[0] then ls
    else [ls[0]] + Insert(ls[1..], l)
  }

  /** The shards of some keys: each once, in increasing order. */
  function LocksOf(keys: seq<bytes>, shardOf: bytes -> nat): seq<nat>
  {
    if keys == [] then [] else Insert(LocksOf(keys[1..], shardOf), shardOf(keys[0]))
  }

  lemma {:induction false} InsertIncreasing(ls: seq<nat>, l: nat)
    requires Increasing(ls)
    ensures Increasing(Insert(ls, l))
    ensures forall x :: x in Insert(ls, l) <==> x in ls || x == l
  {
    if ls != [] && l > ls[0] {
      InsertIncreasing(ls[1..], l);
      var rest := Insert(ls[1..], l);
      assert ls == [ls[0]] + ls[1..];
      forall j | 0 <= j < |rest| ensures ls[0] < rest[j] { assert rest[j] in rest; }
    }
  }

  lemma {:induction false} LocksIncreasing(keys: seq<bytes>, shardOf: bytes -> nat)
    ensures Increasing(LocksOf(keys, shardOf))
    ensures forall l :: l in LocksOf(keys, shardOf) <==> exists i :: 0 <= i < |keys| && shardOf(keys[i]) == l
  {
    if keys != [] {
      LocksIncreasing(keys[1..], shardOf);
      InsertIncreasing(LocksOf(keys[1..], shardOf), shardOf(keys[0]));
      forall l ensures l in LocksOf(keys, shardOf) <==> exists i :: 0 <= i < |keys| && shardOf(keys[i]) == l {
        if l in LocksOf(keys[1..], shardOf) {
          var i :| 0 <= i < |keys[1..]| && shardOf(keys[1..][i]) == l;
          assert shardOf(keys[i + 1]) == l;
        }
        if i :| 0 <= i < |keys| && shardOf(keys[i]) == l {
          if i > 0 { assert shardOf(keys[1..][i - 1]) == l; }
        }
      }
    }
  }

  lemma HeadIn(xs: seq<nat>)
    ensures xs != [] ==> xs[0] in xs
  { }

  /** Two increasing sequences of the same numbers are the same. */
  lemma {:induction false} IncreasingUnique(xs: seq<nat>, ys: seq<nat>)
    requires Increasing(xs) && Increasing(ys)
    requires forall l :: l in xs <==> l in ys
    ensures xs == ys
  {
    HeadIn(xs);
    HeadIn(ys);
    if xs != [] {
      assert xs[0] == ys[0];
      forall l ensures l in xs[1..] <==> l in ys[1..] {
        assert xs == [xs[0]] + xs[1..] && ys == [ys[0]] + ys[1..];
        assert l in xs <==> l == xs[0] || l in xs[1..];
        assert l in ys <==> l == ys[0] || l in ys[1..];
      }
      IncreasingUnique(xs[1..], ys[1..]);
    }
  }

  function Visits(vs: seq<Visit>): seq<Section>
  {
    if vs == [] then [] else [Section([vs[0].cursor % NUM_SHARDS], vs[0].bumps)] + Visits(vs[1..])
  }

  function Rounds(shard: nat, rs: seq<Round>): seq<Section>
  {
    if rs == [] then []
    else Visits(rs[0].evict) + [Section([shard], rs[0].bumps)] + Rounds(shard, rs[1..])
  }

  function Counted(lo: nat, ns: seq<nat>): seq<Section>
    decreases |ns|
  {
    if ns == [] then [] else [Section([lo], ns[0])] + Counted(lo + 1, ns[1..])
  }

  function Probes(ks: seq<bytes>, shardOf: bytes -> nat): seq<Section>
  {
    if ks == [] then [] else [Section([shardOf(ks[0])], 0)] + Probes(ks[1..], shardOf)
  }

  function SectionsOf(op: Operation, shardOf: bytes -> nat): seq<Section>
  {
    match op
    case SingleKey(k, n) => [Section([shardOf(k)], n)]
    case BudgetedWrite(k, n, rs) => [Section([shardOf(k)], n)] + Rounds(shardOf(k), rs)
    case SeveralKeys(ks, n) => [Section(LocksOf(ks, shardOf), n)]
    case MSetNX(ks, p, vs, n) =>
      [Section(LocksOf(ks, shardOf), p)] + Visits(vs) + [Section(LocksOf(ks, shardOf), n)]
    case MSetNXRefused(ks, p, vs) => [Section(LocksOf(ks, shardOf), p)] + Visits(vs)
    case FlushDB(ns) => Counted(0, seq(NUM_SHARDS, i requires 0 <= i < NUM_SHARDS => ns(i))) + [Section([], 1)]
    case PruneWatch(ks) => [Section([], 1)] + Probes(ks, shardOf) + [Section([], 1)]
    case WholeScan => Counted(0, seq(NUM_SHARDS, _ => 0))
    case ReadVersion => [Section([], 1)]
  }

  predicate AllBelow(ls: seq<nat>) { forall i :: 0 <= i < |ls| ==> ls[i] < NUM_SHARDS }

  predicate AllGood(ss: seq<Section>) { forall i :: 0 <= i < |ss| ==> GoodSection(ss[i]) }

  lemma {:induction false} VisitsGood(vs: seq<Visit>)
    ensures AllGood(Visits(vs))
  {
    if vs != [] { VisitsGood(vs[1..]); }
  }

  lemma {:induction false} RoundsGood(shard: nat, rs: seq<Round>)
    requires shard < NUM_SHARDS
    ensures AllGood(Rounds(shard, rs))
  {
    if rs != [] {
      VisitsGood(rs[0].evict);
      RoundsGood(shard, rs[1..]);
    }
  }

  lemma {:induction false} CountedGood(lo: nat, ns: seq<nat>)
    requires lo + |ns| <= NUM_SHARDS
    ensures AllGood(Counted(lo, ns))
    decreases |ns|
  {
    if ns != [] { CountedGood(lo + 1, ns[1..]); }
  }

  lemma {:induction false} ProbesGood(ks: seq<bytes>, shardOf: bytes -> nat)
    requires Routed(shardOf)
    ensures AllGood(Probes(ks, shardOf))
  {
    if ks != [] { ProbesGood(ks[1..], shardOf); }
  }

  lemma LocksGood(ks: seq<bytes>, shardOf: bytes -> nat, n: nat)
    requires Routed(shardOf)
    ensures GoodSection(Section(LocksOf(ks, shardOf), n))
  {
    LocksIncreasing(ks, shardOf);
    var ls := LocksOf(ks, shardOf);
    forall i | 0 <= i < |ls| ensures ls[i] < NUM_SHARDS { assert ls[i] in ls; }
  }

  lemma OperationGood(op: Operation, shardOf: bytes -> nat)
    requires Routed(shardOf)
    ensures AllGood(SectionsOf(op, shardOf))
  {
    match op {
      case BudgetedWrite(k, _, rs) => RoundsGood(shardOf(k), rs);
      case SeveralKeys(ks, n) => LocksGood(ks, shardOf, n);
      case MSetNX(ks, p, vs, n) =>
        LocksGood(ks, shardOf, p);
        VisitsGood(vs);
        LocksGood(ks, shardOf, n);
      case MSetNXRefused(ks, p, vs) =>
        LocksGood(ks, shardOf, p);
        VisitsGood(vs);
      case FlushDB(ns) => CountedGood(0, seq(NUM_SHARDS, i requires 0 <= i < NUM_SHARDS => ns(i)));
      case PruneWatch(ks) => ProbesGood(ks, shardOf);
      case WholeScan => CountedGood(0, seq(NUM_SHARDS, _ => 0));
      case _ =>
    }
  }

  /** A thread may run any number of operations, one after another. */
  function Script(ops: seq<Operation>, shardOf: bytes -> nat): seq<Section>
  {
    if ops == [] then [] else SectionsOf(ops[0], shardOf) + Script(ops[1..], shardOf)
  }

  lemma {:induction false} ScriptGood(ops: seq<Operation>, shardOf: bytes -> nat)
    requires Routed(shardOf)
    ensures AllGood(Script(ops, shardOf))
  {
    if ops != [] {
      OperationGood(ops[0], shardOf);
      ScriptGood(ops[1..], shardOf);
    }
  }

  // ----- the discipline -------------------------------------------------------------------

  /** Every acquisition is above everything held, every release is of something held, and
      nothing is held at the end. */
  predicate Ordered(held: set<nat>, todo: seq<LockOp>)
    decreases |todo|
  {
    if todo == [] then held == {}
    else
      match todo[0]
      case Acquire(l) => (forall h :: h in held ==> h < l) && Ordered(held + {l}, todo[1..])
      case Release(l) => l in held && Ordered(held - {l}, todo[1..])
  }

  ghost function SetOf(ls: seq<nat>): set<nat> { set l | l in ls }

  lemma {:induction false} ReleasesOrdered(ls: seq<nat>, tail: seq<LockOp>)
    requires Increasing(ls) && Ordered({}, tail)
    ensures Ordered(SetOf(ls), Releases(ls) + tail)
  {
    var ops := Releases(ls) + tail;
    if ls == [] {
      assert SetOf(ls) == {} && ops == tail;
    } else {
      ReleasesOrdered(ls[1..], tail);
      assert SetOf(ls) - {ls[0]} == SetOf(ls[1..]) by {
        forall l | l in ls[1..] ensures l != ls[0] { }
      }
      assert ops[0] == Release(ls[0]) && ops[1..] == Releases(ls[1..]) + tail;
    }
  }

  lemma {:induction false} BumpsOrdered(held: set<nat>, n: nat, tail: seq<LockOp>)
    requires (forall h :: h in held ==> h < WATCH_LOCK) && Ordered(held, tail)
    ensures Ordered(held, Bumps(n) + tail)
  {
    var ops := Bumps(n) + tail;
    if n == 0 {
      assert ops == tail;
    } else {
      BumpsOrdered(held, n - 1, tail);
      assert ops[1..][1..] == Bumps(n - 1) + tail;
      assert held + {WATCH_LOCK} - {WATCH_LOCK} == held;
      assert ops[0] == Acquire(WATCH_LOCK) && ops[1..][0] == Release(WATCH_LOCK);
      assert Ordered(held + {WATCH_LOCK}, ops[1..]);
    }
  }

  lemma {:induction false} AcquiresOrdered(done: seq<nat>, ls: seq<nat>, tail: seq<LockOp>)
    requires Increasing(done + ls) && Ordered(SetOf(done + ls), tail)
    ensures Ordered(SetOf(done), Acquires(ls) + tail)
    decreases |ls|
  {
    var ops := Acquires(ls) + tail;
    if ls == [] {
      assert done + ls == done && ops == tail;
    } else {
      assert (done + [ls[0]]) + ls[1..] == done + ls;
      AcquiresOrdered(done + [ls[0]], ls[1..], tail);
      assert SetOf(done + [ls[0]]) == SetOf(done) + {ls[0]};
      assert ops[0] == Acquire(ls[0]) && ops[1..] == Acquires(ls[1..]) + tail;
      forall h | h in SetOf(done) ensures h < ls[0] {
        var i :| 0 <= i < |done| && done[i] == h;
        assert (done + ls)[i] == h && (done + ls)[|done|] == ls[0];
      }
    }
  }

  lemma {:induction false} SectionOrdered(s: Section, tail: seq<LockOp>)
    requires GoodSection(s) && Ordered({}, tail)
    ensures Ordered({}, SectionOps(s) + tail)
  {
    hide Ordered, Acquires, Bumps, Releases;
    ReleasesOrdered(s.shards, tail);
    BumpsOrdered(SetOf(s.shards), s.bumps, Releases(s.shards) + tail);
    var inner := Bumps(s.bumps) + (Releases(s.shards) + tail);
    assert [] + s.shards == s.shards;
    AcquiresOrdered([], s.shards, inner);
    assert SetOf([]) == {};
    assert SectionOps(s) + tail == Acquires(s.shards) + inner;
  }

  lemma {:induction false} ProgramOrdered(ss: seq<Section>)
    requires AllGood(ss)
    ensures Ordered({}, Program(ss))
  {
    if ss != [] {
      ProgramOrdered(ss[1..]);
      SectionOrdered(ss[0], Program(ss[1..]));
    }
  }

  // ----- any number of threads --------------------------------------------------------------

  /** Whether thread `t` can take its next step. */
  predicate CanStep(ts: seq<Thread>, t: nat)
    requires t < |ts|
  {
    ts[t].todo != [] &&
    (ts[t].todo[0].Acquire? ==> forall u :: 0 <= u < |ts| ==> ts[t].todo[0].l !in ts[u].held)
  }

  function StepThread(ts: seq<Thread>, t: nat): seq<Thread>
    requires t < |ts| && CanStep(ts, t)
  {
    var th := ts[t];
    match th.todo[0]
    case Acquire(l) => ts[t := Thread(th.held + {l}, th.todo[1..])]
    case Release(l) => ts[t := Thread(th.held - {l}, th.todo[1..])]
  }

  predicate Disciplined(ts: seq<Thread>)
  {
    && (forall t :: 0 <= t < |ts| ==> Ordered(ts[t].held, ts[t].todo))
    && (forall t, u :: 0 <= t < u < |ts| ==> ts[t].held !! ts[u].held)
  }

  lemma StepDisciplined(ts: seq<Thread>, t: nat)
    requires Disciplined(ts) && t < |ts| && CanStep(ts, t)
    ensures Disciplined(StepThread(ts, t))
  {
    assert Ordered(ts[t].held, ts[t].todo);
  }

  /** Among blocked threads, following "waits for a lock held by" climbs in lock order. */
  lemma {:induction false} ClimbToRunnable(ts: seq<Thread>, t: nat) returns (r: nat)
    requires Disciplined(ts) && t < |ts| && ts[t].todo != []
    requires BoundedLocks(ts)
    ensures r < |ts| && CanStep(ts, r)
    decreases WATCH_LOCK + 1 - (if ts[t].todo[0].Acquire? then ts[t].todo[0].l else WATCH_LOCK + 1)
  {
    if CanStep(ts, t) {
      r := t;
    } else {
      var l := ts[t].todo[0].l;
      var u :| 0 <= u < |ts| && l in ts[u].held;
      assert Ordered(ts[u].held, ts[u].todo);
      assert ts[u].todo != [];
      r := ClimbToRunnable(ts, u);
    }
  }

  predicate BoundedLocks(ts: seq<Thread>)
  {
    forall t, i :: 0 <= t < |ts| && 0 <= i < |ts[t].todo| ==> ts[t].todo[i].l <= WATCH_LOCK
  }

  /** The state after a schedule, if every chosen thread could move. */
  function After(ts: seq<Thread>, schedule: seq<nat>): Option<seq<Thread>>
  {
    if schedule == [] then Some(ts)
    else
      match After(ts, schedule[..|schedule| - 1])
      case None => None
      case Some(us) =>
        var t := schedule[|schedule| - 1];
        if t < |us| && CanStep(us, t) then Some(StepThread(us, t)) else None
  }

  /** Threads about to run their operations. */
  function Start(scripts: seq<seq<Operation>>, shardOf: bytes -> nat): seq<Thread>
  {
    seq(|scripts|, i requires 0 <= i < |scripts| => Thread({}, Program(Script(scripts[i], shardOf))))
  }

  lemma {:induction false} ScheduleInv(scripts: seq<seq<Operation>>, shardOf: bytes -> nat, schedule: seq<nat>)
    requires Routed(shardOf) && After(Start(scripts, shardOf), schedule).Some?
    ensures var ts := After(Start(scripts, shardOf), schedule).value; Disciplined(ts) && BoundedLocks(ts)
    decreases |schedule|
  {
    var ts := Start(scripts, shardOf);
    if schedule == [] {
      forall i | 0 <= i < |ts| ensures Ordered(ts[i].held, ts[i].todo) {
        ScriptGood(scripts[i], shardOf);
        ProgramOrdered(Script(scripts[i], shardOf));
      }
      forall i, j | 0 <= i < |ts| && 0 <= j < |ts[i].todo| ensures ts[i].todo[j].l <= WATCH_LOCK {
        ScriptGood(scripts[i], shardOf);
        ProgramBounded(Script(scripts[i], shardOf));
      }
    } else {
      var before := schedule[..|schedule| - 1];
      ScheduleInv(scripts, shardOf, before);
      StepDisciplined(After(ts, before).value, schedule[|schedule| - 1]);
    }
  }

  predicate Bounded(ops: seq<LockOp>) { forall i :: 0 <= i < |ops| ==> ops[i].l <= WATCH_LOCK }

  lemma {:induction false} ListBounded(ls: seq<nat>)
    requires AllBelow(ls)
    ensures Bounded(Acquires(ls)) && Bounded(Releases(ls))
  {
    if ls != [] { ListBounded(ls[1..]); }
  }

  lemma {:induction false} BumpsBounded(n: nat)
    ensures Bounded(Bumps(n))
  {
    if n > 0 { BumpsBounded(n - 1); }
  }

  lemma {:induction false} ProgramBounded(ss: seq<Section>)
    requires AllGood(ss)
    ensures Bounded(Program(ss))
  {
    if ss != [] {
      ListBounded(ss[0].shards);
      BumpsBounded(ss[0].bumps);
      ProgramBounded(ss[1..]);
    }
  }

  /** Deadlock freedom: whatever operations any number of threads run, however keys are spread
      over the shards and however the threads are interleaved, as long as one of them is not
      finished some thread can move. */
  lemma NoDeadlock(scripts: seq<seq<Operation>>, shardOf: bytes -> nat, schedule: seq<nat>, t: nat) returns (r: nat)
    requires Routed(shardOf) && After(Start(scripts, shardOf), schedule).Some?
    requires var ts := After(Start(scripts, shardOf), schedule).value; t < |ts| && ts[t].todo != []
    ensures var ts := After(Start(scripts, shardOf), schedule).value; r < |ts| && CanStep(ts, r)
  {
    ScheduleInv(scripts, shardOf, schedule);
    r := ClimbToRunnable(After(Start(scripts, shardOf), schedule).value, t);
  }

  /** The order is what prevents deadlock: two renames that took their two locks in opposite
      orders could block each other for good. */
  lemma OppositeOrdersDeadlock(a: nat, b: nat) returns (ts: seq<Thread>, schedule: seq<nat>)
    requires a != b
    ensures ts == [Thread({}, [Acquire(a), Acquire(b)]), Thread({}, [Acquire(b), Acquire(a)])]
    ensures After(ts, schedule).Some?
    ensures var us := After(ts, schedule).value;
            |us| == 2 && us[0].todo != [] && us[1].todo != [] && !CanStep(us, 0) && !CanStep(us, 1)
  {
    ts, schedule := [Thread({}, [Acquire(a), Acquire(b)]), Thread({}, [Acquire(b), Acquire(a)])], [0, 1];
    assert schedule[..1] == [0] && [0][..0] == [];
    assert After(ts, []) == Some(ts);
    assert After(ts, [0]) == Some(StepThread(ts, 0));
    assert StepThread(ts, 0)[0].held == {a};
    assert StepThread(StepThread(ts, 0), 1)[1].held == {b};
  }

  // ----- taking several shard locks ---------------------------------------------------------

  ghost predicate SameNumbers(s: seq<nat>, t: seq<nat>) { multiset(s) == multiset(t) }

  lemma Exchanged(s: seq<nat>, i: nat, j: nat, t: seq<nat>)
    requires i < j < |s| && SameNumbers(s, t)
    ensures SameNumbers(s[i := s[j]][j := s[i]], t)
  {
  }

  /** The exchange sort of the shard numbers. */
  method SortShardIndices(idx: array<nat>)
    modifies idx
    ensures forall i, j :: 0 <= i < j < idx.Length ==> idx[i] <= idx[j]
    ensures multiset(idx[..]) == old(multiset(idx[..]))
  {
    for i := 0 to idx.Length
      invariant forall p, q :: 0 <= p < i && p < q < idx.Length ==> idx[p] <= idx[q]
      invariant SameNumbers(idx[..], old(idx[..]))
    {
      ExchangeFrom(idx, i, old(idx[..]));
    }
  }

  /** One pass of it: the smallest remaining number ends up at position `i`. */
  method ExchangeFrom(idx: array<nat>, i: nat, ghost all: seq<nat>)
    requires i < idx.Length && SameNumbers(idx[..], all)
    requires forall p, q :: 0 <= p < i && p < q < idx.Length ==> idx[p] <= idx[q]
    modifies idx
    ensures forall p, q :: 0 <= p <= i && p < q < idx.Length ==> idx[p] <= idx[q]
    ensures SameNumbers(idx[..], all)
  {
    hide SameNumbers;
    for j := i + 1 to idx.Length
      invariant forall p, q :: 0 <= p < i && p < q < idx.Length ==> idx[p] <= idx[q]
      invariant forall q :: i < q < j ==> idx[i] <= idx[q]
      invariant SameNumbers(idx[..], all)
    {
      if idx[j] < idx[i] {
        ghost var before := idx[..];
        Exchanged(before, i, j, all);
        idx[i], idx[j] := idx[j], idx[i];
        assert idx[..] == before[i := before[j]][j := before[i]];
      }
    }
  }

  /** The locks a multi-key operation takes: each shard of its keys once, in increasing order,
      whatever the routing of keys to shards. */
  method AcquireShardsInOrder(keys: seq<bytes>, shardOf: bytes -> nat) returns (locks: seq<nat>)
    ensures locks == LocksOf(keys, shardOf)
    ensures Increasing(locks)
    ensures forall l :: l in locks <==> exists i :: 0 <= i < |keys| && shardOf(keys[i]) == l
  {
    hide LocksOf;
    var seen: set<nat> := {};
    var idx: seq<nat> := [];
    for i := 0 to |keys|
      invariant forall l :: l in seen <==> exists j :: 0 <= j < i && shardOf(keys[j]) == l
      invariant forall l :: l in idx <==> l in seen
      invariant forall a, b :: 0 <= a < b < |idx| ==> idx[a] != idx[b]
    {
      var si := shardOf(keys[i]);
      if si in seen { continue; }
      seen := seen + {si};
      idx := idx + [si];
    }
    var arr := new nat[|idx|](i requires 0 <= i < |idx| => idx[i]);
    assert arr[..] == idx;
    SortShardIndices(arr);
    locks := arr[..];
    SortedDistinct(idx, locks);
    LocksIncreasing(keys, shardOf);
    IncreasingUnique(locks, LocksOf(keys, shardOf));
  }

  /** Sorting a sequence without repetitions gives a strictly increasing one. */
  lemma SortedDistinct(idx: seq<nat>, sorted: seq<nat>)
    requires multiset(sorted) == multiset(idx)
    requires forall a, b :: 0 <= a < b < |idx| ==> idx[a] != idx[b]
    requires forall a, b :: 0 <= a < b < |sorted| ==> sorted[a] <= sorted[b]
    ensures Increasing(sorted)
    ensures forall l :: l in sorted <==> l in idx
  {
    forall l ensures l in sorted <==> l in idx {
      assert l in sorted <==> l in multiset(sorted);
      assert l in idx <==> l in multiset(idx);
    }
    forall a, b | 0 <= a < b < |sorted| ensures sorted[a] < sorted[b] {
      if sorted[a] == sorted[b] {
        Twice(sorted, a, b);
        Once(idx, sorted[a]);
      }
    }
  }

  lemma Twice(s: seq<nat>, a: nat, b: nat)
    requires a < b < |s| && s[a] == s[b]
    ensures multiset(s)[s[a]] >= 2
  {
    assert s == s[..b] + [s[b]] + s[b + 1..];
    assert s[..b][a] == s[a];
    assert s[a] in multiset(s[..b]);
  }

  lemma {:induction false} Once(s: seq<nat>, x: nat)
    requires forall a, b :: 0 <= a < b < |s| ==> s[a] != s[b]
    ensures multiset(s)[x] <= 1
  {
    if s != [] {
      var n := |s| - 1;
      Once(s[..n], x);
      assert s == s[..n] + [s[n]];
      if x == s[n] {
        assert x !in s[..n];
        assert multiset(s[..n])[x] == 0;
      }
    }
  }
}
