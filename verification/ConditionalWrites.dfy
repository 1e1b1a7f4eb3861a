/** SETNX, SETXX and MSETNX among other clients. Making room drops every lock, so each checks its
    condition again afterwards; MSETNX then checks and writes its keys one by one while holding the
    locks of their shards. */
module ConditionalWrites {
  import opened Bytes

  datatype Val = Val(value: bytes, expiresAt: Option<int>)

  predicate Fresh(v: Val, now: int) { v.expiresAt.None? || now <= v.expiresAt.value }

  /** Where a client's call stands. `Gap` is the stretch without locks in which room is made;
      `second` tells the pass after it from the one before. */
  datatype Proc =
    | Idle
    | OneGap(key: bytes, val: Val, nx: bool)
    | Locking(pairs: map<bytes, Val>, second: bool, shards: set<nat>)
    | Checking(pairs: map<bytes, Val>, second: bool, todo: set<bytes>)
    | ManyGap(pairs: map<bytes, Val>)
    | Writing(pairs: map<bytes, Val>, todo: set<bytes>)

  /** `locks` says which client holds the lock of a shard. */
  datatype State = State(m: map<bytes, Val>, now: int, locks: map<nat, nat>, procs: seq<Proc>)

  datatype Action =
    | StartOne(t: nat, key: bytes, val: Val, nx: bool, room: bool)
    | FinishOne(t: nat, oom: bool)
    | StartMany(t: nat, pairs: map<bytes, bytes>)
    | Acquire(t: nat, i: nat)
    | Locked(t: nat)
    | Check(t: nat, k: bytes)
    | Checked(t: nat)
    | Resume(t: nat, oom: bool)
    | Write(t: nat, k: bytes)
    | Written(t: nat)
    | Elsewhere(changes: map<bytes, Option<Val>>)
    | Tick(d: nat)

  predicate LiveIn(s: State, k: bytes) { k in s.m && Fresh(s.m[k], s.now) }

  predicate Free(s: State, shardOf: bytes -> nat, k: bytes) { shardOf(k) !in s.locks }

  function ShardsOf(pairs: map<bytes, Val>, shardOf: bytes -> nat): set<nat> { set k | k in pairs :: shardOf(k) }

  predicate Enabled(s: State, shardOf: bytes -> nat, a: Action)
  {
    match a
    case StartOne(t, key, _, _, _) => t < |s.procs| && s.procs[t].Idle? && Free(s, shardOf, key)
    case FinishOne(t, _) => t < |s.procs| && s.procs[t].OneGap? && Free(s, shardOf, s.procs[t].key)
    case StartMany(t, _) => t < |s.procs| && s.procs[t].Idle?
    case Acquire(t, i) => t < |s.procs| && s.procs[t].Locking? && i in s.procs[t].shards && i !in s.locks
    case Locked(t) => t < |s.procs| && s.procs[t].Locking? && s.procs[t].shards == {}
    case Check(t, k) => t < |s.procs| && s.procs[t].Checking? && k in s.procs[t].todo
    case Checked(t) => t < |s.procs| && s.procs[t].Checking? && s.procs[t].todo == {}
    case Resume(t, _) => t < |s.procs| && s.procs[t].ManyGap?
    case Write(t, k) => t < |s.procs| && s.procs[t].Writing? && k in s.procs[t].todo && k in s.procs[t].pairs
    case Written(t) => t < |s.procs| && s.procs[t].Writing? && s.procs[t].todo == {}
    case Elsewhere(changes) => forall k :: k in changes ==> Free(s, shardOf, k)
    case Tick(_) => true
  }

  function Unlocked(s: State, t: nat): map<nat, nat> { map i | i in s.locks && s.locks[i] != t :: s.locks[i] }

  function Moved(s: State, t: nat, p: Proc): State
    requires t < |s.procs|
  {
    s.(procs := s.procs[t := p])
  }

  /** The condition of a single conditional write. */
  predicate Wants(s: State, key: bytes, nx: bool) { LiveIn(s, key) != nx }

  function Changed(m: map<bytes, Val>, changes: map<bytes, Option<Val>>): map<bytes, Val>
  {
    map k | k in m.Keys + changes.Keys && (k in changes ==> changes[k].Some?) ::
      if k in changes then changes[k].value else m[k]
  }

  function Do(s: State, shardOf: bytes -> nat, a: Action): State
    requires Enabled(s, shardOf, a)
  {
    match a
    case StartOne(t, key, val, nx, room) =>
      if !Wants(s, key, nx) then s
      else if room then s.(m := s.m[key := val])
      else Moved(s, t, OneGap(key, val, nx))
    case FinishOne(t, oom) =>
      var p := s.procs[t];
      var done := Moved(s, t, Idle);
      if oom || !Wants(s, p.key, p.nx) then done else done.(m := s.m[p.key := p.val])
    case StartMany(t, pairs) =>
      if pairs == map[] then s
      else
        var vals := map k | k in pairs :: Val(pairs[k], None);
        Moved(s, t, Locking(vals, false, ShardsOf(vals, shardOf)))
    case Acquire(t, i) =>
      var p := s.procs[t];
      Moved(s, t, Locking(p.pairs, p.second, p.shards - {i})).(locks := s.locks[i := t])
    case Locked(t) =>
      var p := s.procs[t];
      Moved(s, t, Checking(p.pairs, p.second, p.pairs.Keys))
    case Check(t, k) =>
      var p := s.procs[t];
      if LiveIn(s, k) then Moved(s, t, Idle).(locks := Unlocked(s, t))
      else Moved(s, t, Checking(p.pairs, p.second, p.todo - {k}))
    case Checked(t) =>
      var p := s.procs[t];
      if p.second then Moved(s, t, Writing(p.pairs, p.pairs.Keys))
      else Moved(s, t, ManyGap(p.pairs)).(locks := Unlocked(s, t))
    case Resume(t, oom) =>
      var p := s.procs[t];
      if oom then Moved(s, t, Idle) else Moved(s, t, Locking(p.pairs, true, ShardsOf(p.pairs, shardOf)))
    case Write(t, k) =>
      var p := s.procs[t];
      Moved(s, t, Writing(p.pairs, p.todo - {k})).(m := s.m[k := p.pairs[k]])
    case Written(t) => Moved(s, t, Idle).(locks := Unlocked(s, t))
    case Elsewhere(changes) => s.(m := Changed(s.m, changes))
    case Tick(d) => s.(now := s.now + d)
  }

  // ----- what the clients see as atomic ---------------------------------------------------

  /** Client `t` has committed to writing `k` and has yet to do so. */
  predicate Pending(s: State, t: nat, k: bytes)
  {
    t < |s.procs| && s.procs[t].Writing? && k in s.procs[t].todo && k in s.procs[t].pairs
  }

  /** The content of a key once the writes already decided on are counted as done. */
  function Seen(s: State, shardOf: bytes -> nat, k: bytes): Option<Val>
  {
    var i := shardOf(k);
    if i in s.locks && Pending(s, s.locks[i], k) then Some(s.procs[s.locks[i]].pairs[k])
    else if LiveIn(s, k) then Some(s.m[k])
    else None
  }

  datatype Event =
    | Silent
    | Committed(writes: map<bytes, Val>, nx: bool)
    | Refused(key: bytes, nx: bool)
    | Failed
    | Other(changes: map<bytes, Option<Val>>)
    | Passed

  /** What a step means to the outside: MSETNX takes effect when its second check is complete. */
  function EventOf(s: State, shardOf: bytes -> nat, a: Action): Event
    requires Enabled(s, shardOf, a)
  {
    match a
    case StartOne(t, key, val, nx, room) =>
      if !Wants(s, key, nx) then Refused(key, nx) else if room then Committed(map[key := val], nx) else Silent
    case FinishOne(t, oom) =>
      var p := s.procs[t];
      if oom then Failed else if !Wants(s, p.key, p.nx) then Refused(p.key, p.nx) else Committed(map[p.key := p.val], p.nx)
    case StartMany(t, pairs) => if pairs == map[] then Committed(map[], true) else Silent
    case Check(t, k) => if LiveIn(s, k) then Refused(k, true) else Silent
    case Checked(t) => if s.procs[t].second then Committed(s.procs[t].pairs, true) else Silent
    case Resume(t, oom) => if oom then Failed else Silent
    case Elsewhere(changes) => Other(changes)
    case Tick(_) => Passed
    case _ => Silent
  }

  function Shown(v: Option<Val>, now: int): Option<Val> { if v.Some? && Fresh(v.value, now) then v else None }

  /** What an event does to one key, as an operation on the whole store at one moment would. */
  ghost predicate Explains(s: State, t: State, shardOf: bytes -> nat, e: Event, k: bytes)
  {
    var before, after := Seen(s, shardOf, k), Seen(t, shardOf, k);
    match e
    case Committed(writes, nx) =>
      && (k in writes ==> (before.None? <==> nx))
      && after == if k in writes then Shown(Some(writes[k]), s.now) else before
    case Refused(key, nx) => (k == key ==> (before.Some? <==> nx)) && after == before
    case Other(changes) => after == if k in changes then Shown(changes[k], s.now) else before
    case Passed => after == before || (before.Some? && !Fresh(before.value, t.now) && after.None?)
    case _ => after == before
  }

  // ----- the invariant --------------------------------------------------------------------

  ghost predicate Owns(s: State, shardOf: bytes -> nat, t: nat, pairs: map<bytes, Val>, but: set<nat>)
  {
    forall k :: k in pairs && shardOf(k) !in but ==> shardOf(k) in s.locks && s.locks[shardOf(k)] == t
  }

  ghost predicate Plain(pairs: map<bytes, Val>) { forall k :: k in pairs ==> pairs[k].expiresAt.None? }

  ghost predicate ProcOK(s: State, shardOf: bytes -> nat, t: nat)
    requires t < |s.procs|
  {
    match s.procs[t]
    case Locking(pairs, _, shards) => Plain(pairs) && Owns(s, shardOf, t, pairs, shards)
    case Checking(pairs, _, todo) =>
      Plain(pairs) && Owns(s, shardOf, t, pairs, {}) && todo <= pairs.Keys
      && forall k :: k in pairs && k !in todo ==> !LiveIn(s, k)
    case ManyGap(pairs) => Plain(pairs)
    case Writing(pairs, todo) =>
      Plain(pairs) && Owns(s, shardOf, t, pairs, {}) && todo <= pairs.Keys
      && (forall k :: k in todo ==> !LiveIn(s, k))
      && (forall k :: k in pairs && k !in todo ==> k in s.m && s.m[k] == pairs[k])
    case _ => true
  }

  ghost predicate Inv(s: State, shardOf: bytes -> nat)
  {
    forall t {:trigger ProcOK(s, shardOf, t)} :: 0 <= t < |s.procs| ==> ProcOK(s, shardOf, t)
  }

  /** Who a step belongs to. */
  function ClientOf(a: Action): Option<nat>
  {
    match a
    case Elsewhere(_) => None
    case Tick(_) => None
    case _ => Some(a.t)
  }

  /** A step of one client keeps what another relies on: it touches no shard the other holds. */
  lemma OtherKept(s: State, shardOf: bytes -> nat, a: Action, u: nat)
    requires Inv(s, shardOf) && Enabled(s, shardOf, a) && u < |s.procs| && ClientOf(a) != Some(u)
    ensures ProcOK(Do(s, shardOf, a), shardOf, u)
  {
    assert ProcOK(s, shardOf, u);
    if ClientOf(a).Some? { assert ProcOK(s, shardOf, a.t); }
    match a
    case StartOne(t, key, val, nx, room) => KeptApart(s, shardOf, Do(s, shardOf, a), u, {key});
    case FinishOne(t, oom) => KeptApart(s, shardOf, Do(s, shardOf, a), u, {s.procs[t].key});
    case Write(t, k) => KeptApart(s, shardOf, Do(s, shardOf, a), u, {k});
    case Elsewhere(changes) => KeptApart(s, shardOf, Do(s, shardOf, a), u, changes.Keys);
    case _ => KeptApart(s, shardOf, Do(s, shardOf, a), u, {});
  }

  /** Keys change only in shards that `u` does not hold, time only advances, and `u` keeps its
      locks. */
  lemma KeptApart(s: State, shardOf: bytes -> nat, t: State, u: nat, changed: set<bytes>)
    requires u < |s.procs| && ProcOK(s, shardOf, u) && |t.procs| == |s.procs| && t.procs[u] == s.procs[u]
    requires forall i :: i in s.locks && s.locks[i] == u ==> i in t.locks && t.locks[i] == u
    requires forall k :: k in changed ==> shardOf(k) !in s.locks || s.locks[shardOf(k)] != u
    requires forall k :: k !in changed ==> (k in s.m <==> k in t.m) && (k in s.m ==> s.m[k] == t.m[k])
    requires s.now <= t.now
    ensures ProcOK(t, shardOf, u)
  {
  }

  lemma OwnKept(s: State, shardOf: bytes -> nat, a: Action)
    requires Inv(s, shardOf) && Enabled(s, shardOf, a) && ClientOf(a).Some?
    ensures ProcOK(Do(s, shardOf, a), shardOf, a.t)
  {
    assert ProcOK(s, shardOf, a.t);
  }

  lemma StepInv(s: State, shardOf: bytes -> nat, a: Action)
    requires Inv(s, shardOf) && Enabled(s, shardOf, a)
    ensures Inv(Do(s, shardOf, a), shardOf)
  {
    var t := Do(s, shardOf, a);
    forall u | 0 <= u < |t.procs| ensures ProcOK(t, shardOf, u) {
      if ClientOf(a) == Some(u) { OwnKept(s, shardOf, a); } else { OtherKept(s, shardOf, a, u); }
    }
  }

  lemma OneExplained(s: State, shardOf: bytes -> nat, a: Action, k: bytes)
    requires Inv(s, shardOf) && Enabled(s, shardOf, a) && (a.StartOne? || a.FinishOne?)
    ensures Explains(s, Do(s, shardOf, a), shardOf, EventOf(s, shardOf, a), k)
  {
    assert ProcOK(s, shardOf, a.t);
  }

  /** The steps in which MSETNX decides nothing and writes nothing. */
  lemma QuietExplained(s: State, shardOf: bytes -> nat, a: Action, k: bytes)
    requires Inv(s, shardOf) && Enabled(s, shardOf, a)
    requires a.StartMany? || a.Acquire? || a.Locked? || a.Check? || a.Resume? || a.Written?
    ensures Explains(s, Do(s, shardOf, a), shardOf, EventOf(s, shardOf, a), k)
  {
    assert ProcOK(s, shardOf, a.t);
  }

  /** The steps in which it commits and writes. */
  lemma WriteExplained(s: State, shardOf: bytes -> nat, a: Action, k: bytes)
    requires Inv(s, shardOf) && Enabled(s, shardOf, a) && (a.Checked? || a.Write?)
    ensures Explains(s, Do(s, shardOf, a), shardOf, EventOf(s, shardOf, a), k)
  {
    assert ProcOK(s, shardOf, a.t);
    if shardOf(k) in s.locks && s.locks[shardOf(k)] < |s.procs| { assert ProcOK(s, shardOf, s.locks[shardOf(k)]); }
  }

  lemma OutsideExplained(s: State, shardOf: bytes -> nat, a: Action, k: bytes)
    requires Inv(s, shardOf) && Enabled(s, shardOf, a) && (a.Elsewhere? || a.Tick?)
    ensures Explains(s, Do(s, shardOf, a), shardOf, EventOf(s, shardOf, a), k)
  {
    if shardOf(k) in s.locks && s.locks[shardOf(k)] < |s.procs| { assert ProcOK(s, shardOf, s.locks[shardOf(k)]); }
  }

  /** Every step is explained, key by key, by one atomic operation whose condition held just then. */
  lemma StepExplained(s: State, shardOf: bytes -> nat, a: Action, k: bytes)
    requires Inv(s, shardOf) && Enabled(s, shardOf, a)
    ensures Explains(s, Do(s, shardOf, a), shardOf, EventOf(s, shardOf, a), k)
  {
    hide Do, EventOf, Explains, ProcOK;
    if a.StartOne? || a.FinishOne? {
      OneExplained(s, shardOf, a, k);
    } else if a.Checked? || a.Write? {
      WriteExplained(s, shardOf, a, k);
    } else if a.Elsewhere? || a.Tick? {
      OutsideExplained(s, shardOf, a, k);
    } else {
      QuietExplained(s, shardOf, a, k);
    }
  }

  /** A client that gets the lock of a key sees what has been decided: nothing is half written. */
  lemma UnlockedIsReal(s: State, shardOf: bytes -> nat, k: bytes)
    requires Free(s, shardOf, k)
    ensures Seen(s, shardOf, k) == if LiveIn(s, k) then Some(s.m[k]) else None
  {
  }

  /** When MSETNX lets go of its locks, all its keys are written. */
  lemma AllWritten(s: State, shardOf: bytes -> nat, t: nat, k: bytes)
    requires Inv(s, shardOf) && Enabled(s, shardOf, Written(t)) && k in s.procs[t].pairs
    ensures Seen(Do(s, shardOf, Written(t)), shardOf, k) == Some(s.procs[t].pairs[k])
  {
    assert ProcOK(s, shardOf, t);
  }

  function Initial(m: map<bytes, Val>, now: int, clients: nat): State { State(m, now, map[], seq(clients, _ => Idle)) }

  function After(s: State, shardOf: bytes -> nat, run: seq<Action>): Option<State>
    decreases |run|
  {
    if run == [] then Some(s)
    else
      var n := |run| - 1;
      var before := After(s, shardOf, run[..n]);
      if before.None? || !Enabled(before.value, shardOf, run[n]) then None
      else Some(Do(before.value, shardOf, run[n]))
  }

  lemma {:induction false} RunInv(s: State, shardOf: bytes -> nat, run: seq<Action>)
    requires Inv(s, shardOf) && After(s, shardOf, run).Some?
    ensures Inv(After(s, shardOf, run).value, shardOf)
    decreases |run|
  {
    if run != [] {
      var n := |run| - 1;
      RunInv(s, shardOf, run[..n]);
      StepInv(After(s, shardOf, run[..n]).value, shardOf, run[n]);
    }
  }

  /** Linearizability over every interleaving: each step of each run is explained on every key by
      one atomic operation whose key condition held at that very moment. So SETNX, SETXX and MSETNX
      commit only where their condition holds, MSETNX writes all keys or none, and a refused or
      failed call changes nothing. */
  lemma RunExplained(m: map<bytes, Val>, now: int, clients: nat, shardOf: bytes -> nat, run: seq<Action>, k: bytes)
    requires run != [] && After(Initial(m, now, clients), shardOf, run).Some?
    ensures var n := |run| - 1;
      var s := After(Initial(m, now, clients), shardOf, run[..n]).value;
      Explains(s, After(Initial(m, now, clients), shardOf, run).value, shardOf, EventOf(s, shardOf, run[n]), k)
  {
    var n := |run| - 1;
    RunInv(Initial(m, now, clients), shardOf, run[..n]);
    StepExplained(After(Initial(m, now, clients), shardOf, run[..n]).value, shardOf, run[n], k);
  }
}
