/** WATCH and EXEC: every key has a version, mutations bump it, and a transaction runs only if the
    versions it recorded are still current. */
module Watch {
  import opened Bytes
  import opened Keyspace

  /** Stored entries and versions; a key without a version counts as version 0. */
  datatype State = State(entries: map<bytes, Rec>, versions: map<bytes, nat>)

  function Version(s: State, k: bytes): nat { if k in s.versions then s.versions[k] else 0 }

  /** The store's mutations, as far as entries and versions go. */
  datatype Action =
    | Purge(k: bytes)
    | Replace(k: bytes, r: Rec)
    | Rename(src: bytes, dst: bytes)
    | Flush
    | Prune

  predicate Enabled(s: State, a: Action)
  {
    match a
    case Purge(k) => k in s.entries
    case Rename(src, dst) => src in s.entries
    case _ => true
  }

  function Do(s: State, a: Action): State
    requires Enabled(s, a)
  {
    match a
    case Purge(k) => State(s.entries - {k}, Bumped(s.versions, k))
    case Replace(k, r) => State(s.entries[k := r], Bumped(s.versions, k))
    case Rename(src, dst) =>
      if src == dst then s
      else
        var mid := if dst in s.entries then Bumped(s.versions, dst) else s.versions;
        State((s.entries - {src})[dst := s.entries[src]], Bumped(mid, dst))
    case Flush => State(map[], map[])
    case Prune => State(s.entries, map k | k in s.versions && k in s.entries :: s.versions[k])
  }

  /** How often a step rewrites or removes the entry of a key. */
  function Touches(s: State, a: Action, k: bytes): nat
    requires Enabled(s, a)
  {
    match a
    case Purge(j) => if j == k then 1 else 0
    case Replace(j, _) => if j == k then 1 else 0
    case Rename(src, dst) =>
      if src == dst then 0
      else if k == src then 1
      else if k == dst then (if dst in s.entries then 2 else 1)
      else 0
    case Flush => if k in s.entries then 1 else 0
    case Prune => 0
  }

  /** The version of a key counts the touches. */
  predicate Counts(s: State, a: Action, k: bytes)
    requires Enabled(s, a)
  {
    Version(Do(s, a), k) == (Version(s, k) + Touches(s, a, k)) % UINT64_SIZE
  }

  /** The steps that lose count of a key: renaming it away does not bump it, and a flush or a prune
      sets it back to 0. */
  predicate Forgets(s: State, a: Action, k: bytes)
  {
    match a
    case Rename(src, dst) => src == k && src != dst
    case Flush => (Version(s, k) + if k in s.entries then 1 else 0) % UINT64_SIZE != 0
    case Prune => k !in s.entries && Version(s, k) != 0
    case _ => false
  }

  predicate Wrapped(s: State) { forall k :: k in s.versions ==> s.versions[k] < UINT64_SIZE }

  lemma DoWrapped(s: State, a: Action)
    requires Wrapped(s) && Enabled(s, a)
    ensures Wrapped(Do(s, a))
  {
  }

  /** Exactly the other steps keep the count. */
  lemma CountsIff(s: State, a: Action, k: bytes)
    requires Wrapped(s) && Enabled(s, a)
    ensures Counts(s, a, k) <==> !Forgets(s, a, k)
  {
  }

  /** A step that does not touch a key leaves its presence, value and expiry alone. */
  lemma UntouchedSame(s: State, a: Action, k: bytes)
    requires Enabled(s, a) && Touches(s, a, k) == 0
    ensures k in s.entries <==> k in Do(s, a).entries
    ensures k in s.entries ==> s.entries[k] == Do(s, a).entries[k]
  {
  }

  function After(s: State, run: seq<Action>): Option<State>
    decreases |run|
  {
    if run == [] then Some(s)
    else
      var n := |run| - 1;
      var before := After(s, run[..n]);
      if before.None? || !Enabled(before.value, run[n]) then None else Some(Do(before.value, run[n]))
  }

  /** Touches of a key over a run. */
  function Touched(s: State, run: seq<Action>, k: bytes): nat
    requires After(s, run).Some?
    decreases |run|
  {
    if run == [] then 0
    else
      var n := |run| - 1;
      Touched(s, run[..n], k) + Touches(After(s, run[..n]).value, run[n], k)
  }

  /** No step of the run loses count of the key. */
  ghost predicate Remembers(s: State, run: seq<Action>, k: bytes)
    requires After(s, run).Some?
    decreases |run|
  {
    run == [] ||
    var n := |run| - 1;
    Remembers(s, run[..n], k) && !Forgets(After(s, run[..n]).value, run[n], k)
  }

  lemma {:induction false} RunCounts(s: State, run: seq<Action>, k: bytes)
    requires Wrapped(s) && After(s, run).Some? && Remembers(s, run, k)
    ensures Wrapped(After(s, run).value)
    ensures Version(After(s, run).value, k) == (Version(s, k) + Touched(s, run, k)) % UINT64_SIZE
    decreases |run|
  {
    hide Do, Forgets, Touches;
    if run != [] {
      var n := |run| - 1;
      var before := After(s, run[..n]).value;
      RunCounts(s, run[..n], k);
      DoWrapped(before, run[n]);
      CountsIff(before, run[n], k);
      ModSum(Version(s, k) + Touched(s, run[..n], k), Touches(before, run[n], k));
    }
  }

  lemma ModSum(a: nat, b: nat)
    ensures (a % UINT64_SIZE + b) % UINT64_SIZE == (a + b) % UINT64_SIZE
  {
  }

  lemma NoWrap(v: nat, n: nat)
    requires v < UINT64_SIZE && n < UINT64_SIZE && (v + n) % UINT64_SIZE == v
    ensures n == 0
  {
  }

  lemma {:induction false} RunUntouched(s: State, run: seq<Action>, k: bytes, i: nat)
    requires After(s, run).Some? && Touched(s, run, k) == 0 && i <= |run|
    ensures After(s, run[..i]).Some?
    ensures var t := After(s, run[..i]).value;
      (k in s.entries <==> k in t.entries) && (k in s.entries ==> s.entries[k] == t.entries[k])
    decreases |run|
  {
    var n := |run| - 1;
    if i == |run| {
      assert run[..i] == run;
      if run != [] {
        RunUntouched(s, run[..n], k, n);
        assert run[..n][..n] == run[..n];
        UntouchedSame(After(s, run[..n]).value, run[n], k);
      }
    } else {
      RunUntouched(s, run[..n], k, i);
      assert run[..n][..i] == run[..i];
    }
  }

  /** WATCH is sound: between two moments with equal versions of a key, as long as no step lost
      count of it and fewer than 2^64 touches happened, the key was not touched at all, so its
      presence, value and expiry were the same all along. */
  lemma WatchSound(s: State, run: seq<Action>, k: bytes, i: nat)
    requires Wrapped(s) && After(s, run).Some? && Remembers(s, run, k) && Touched(s, run, k) < UINT64_SIZE
    requires Version(After(s, run).value, k) == Version(s, k) && i <= |run|
    ensures Touched(s, run, k) == 0 && After(s, run[..i]).Some?
    ensures var t := After(s, run[..i]).value;
      (k in s.entries <==> k in t.entries) && (k in s.entries ==> s.entries[k] == t.entries[k])
  {
    RunCounts(s, run, k);
    NoWrap(Version(s, k), Touched(s, run, k));
    RunUntouched(s, run, k, i);
  }

  // ----- where it is not: three runs that leave the version as it was -----------------------

  const K: bytes := [107]
  const J: bytes := [106]

  function Held(v: bytes): State { State(map[K := Rec(Str(v), None)], map[K := 1]) }

  /** A flush between two writes. */
  lemma FlushFools(v: bytes, w: bytes)
    requires v != w
    ensures var t := After(Held(v), [Flush, Replace(K, Rec(Str(w), None))]);
      t.Some? && Version(t.value, K) == Version(Held(v), K) && t.value.entries[K] != Held(v).entries[K]
  {
    var run := [Flush, Replace(K, Rec(Str(w), None))];
    assert run[..1] == [Flush] && [Flush][..0] == [];
    assert After(Held(v), [Flush]) == Some(State(map[], map[]));
  }

  /** A deletion whose version is pruned before the key is written again. */
  lemma PruneFools(v: bytes, w: bytes)
    requires v != w
    ensures var t := After(Held(v), [Purge(K), Prune, Replace(K, Rec(Str(w), None))]);
      t.Some? && Version(t.value, K) == Version(Held(v), K) && t.value.entries[K] != Held(v).entries[K]
  {
    var run := [Purge(K), Prune, Replace(K, Rec(Str(w), None))];
    assert run[..2] == [Purge(K), Prune] && [Purge(K), Prune][..1] == [Purge(K)] && [Purge(K)][..0] == [];
    assert After(Held(v), [Purge(K)]) == Some(Do(Held(v), Purge(K)));
    assert After(Held(v), [Purge(K), Prune]) == Some(Do(Do(Held(v), Purge(K)), Prune));
  }

  /** A rename that takes the key away. */
  lemma RenameFools(v: bytes)
    ensures var t := After(Held(v), [Rename(K, J)]);
      t.Some? && Version(t.value, K) == Version(Held(v), K) && K in Held(v).entries && K !in t.value.entries
  {
    assert [Rename(K, J)][..0] == [];
  }

  // ----- transactions -----------------------------------------------------------------------

  /** One client's transaction among the changes of others. `log` is every change to the store so
      far; `watchedAt` and `comparedAt` are the lengths it had when a key's version was read. */
  datatype Phase = Idle | Comparing(todo: set<bytes>) | Running | Aborting(key: bytes, at: nat)

  datatype World = World(
    store: State, watched: map<bytes, nat>, phase: Phase,
    log: seq<Action>, watchedAt: map<bytes, nat>, comparedAt: map<bytes, nat>)

  function Fresh(s: State): World { World(s, map[], Idle, [], map[], map[]) }

  /** WATCH and EXEC read the versions one key at a time, and the queue starts after the last. */
  datatype Event = Other(a: Action) | WatchKey(k: bytes) | Forget | Exec | Compare(k: bytes) | Start

  predicate Can(w: World, e: Event)
  {
    match e
    case Other(a) => Enabled(w.store, a)
    case Compare(k) => w.phase.Comparing? && k in w.phase.todo && k in w.watched
    case Start => w.phase.Comparing? && w.phase.todo == {}
    case _ => w.phase.Idle?
  }

  function Next(w: World, e: Event): World
    requires Can(w, e)
  {
    match e
    case Other(a) => w.(store := Do(w.store, a), log := w.log + [a])
    case WatchKey(k) => w.(watched := w.watched[k := Version(w.store, k)], watchedAt := w.watchedAt[k := |w.log|])
    case Forget => w.(watched := map[], watchedAt := map[])
    case Exec => w.(phase := Comparing(w.watched.Keys))
    case Compare(k) =>
      if Version(w.store, k) == w.watched[k]
      then w.(phase := Comparing(w.phase.todo - {k}), comparedAt := w.comparedAt[k := |w.log|])
      else w.(phase := Aborting(k, |w.log|))
    case Start => w.(phase := Running)
  }

  function Leads(w: World, run: seq<Event>): Option<World>
    decreases |run|
  {
    if run == [] then Some(w)
    else
      var n := |run| - 1;
      var before := Leads(w, run[..n]);
      if before.None? || !Can(before.value, run[n]) then None else Some(Next(before.value, run[n]))
  }

  lemma LeadsOn(w: World, run: seq<Event>, e: Event)
    requires Leads(w, run).Some? && Can(Leads(w, run).value, e)
    ensures Leads(w, run + [e]) == Some(Next(Leads(w, run).value, e))
  {
    assert (run + [e])[..|run|] == run;
  }

  lemma {:induction false} AfterPrefix(s: State, log: seq<Action>, i: nat)
    requires After(s, log).Some? && i <= |log|
    ensures After(s, log[..i]).Some?
    decreases |log|
  {
    if i == |log| {
      assert log[..i] == log;
    } else {
      AfterPrefix(s, log[..|log| - 1], i);
      assert log[..|log| - 1][..i] == log[..i];
    }
  }

  /** The store when `i` changes had been made. */
  ghost function At(s: State, log: seq<Action>, i: nat): State
    requires After(s, log).Some? && i <= |log|
  {
    AfterPrefix(s, log, i);
    After(s, log[..i]).value
  }

  lemma AtSnoc(s: State, log: seq<Action>, a: Action, i: nat)
    requires After(s, log).Some? && Enabled(After(s, log).value, a) && i <= |log|
    ensures After(s, log + [a]) == Some(Do(After(s, log).value, a)) && At(s, log + [a], i) == At(s, log, i)
  {
    assert (log + [a])[..|log|] == log && (log + [a])[..i] == log[..i];
  }

  /** What was recorded for a key is its version when it was watched. */
  ghost predicate Recorded(s: State, w: World, k: bytes)
    requires After(s, w.log).Some?
  {
    k in w.watched && k in w.watchedAt && w.watchedAt[k] <= |w.log|
    && w.watched[k] == Version(At(s, w.log, w.watchedAt[k]), k)
  }

  /** It was also its version when it was compared. */
  ghost predicate Confirmed(s: State, w: World, k: bytes)
    requires After(s, w.log).Some?
  {
    Recorded(s, w, k) && k in w.comparedAt && w.watchedAt[k] <= w.comparedAt[k] <= |w.log|
    && w.watched[k] == Version(At(s, w.log, w.comparedAt[k]), k)
  }

  ghost predicate TxInv(s: State, w: World)
  {
    && After(s, w.log) == Some(w.store)
    && (forall k :: k in w.watched ==> Recorded(s, w, k))
    && (forall k :: k in w.comparedAt ==> Confirmed(s, w, k))
    && match w.phase
       case Idle => w.comparedAt == map[]
       case Comparing(todo) => forall k :: k in w.watched ==> k in todo || k in w.comparedAt
       case Running => forall k :: k in w.watched ==> k in w.comparedAt
       case Aborting(k, i) => Recorded(s, w, k) && w.watchedAt[k] <= i <= |w.log|
                              && w.watched[k] != Version(At(s, w.log, i), k)
  }

  lemma OtherInv(s: State, w: World, a: Action)
    requires TxInv(s, w) && Enabled(w.store, a)
    ensures TxInv(s, Next(w, Other(a)))
  {
    hide At, Do;
    var t := Next(w, Other(a));
    forall i: nat | i <= |w.log| ensures After(s, t.log) == Some(t.store) && At(s, t.log, i) == At(s, w.log, i) {
      AtSnoc(s, w.log, a, i);
    }
    assert After(s, t.log) == Some(t.store) by { AtSnoc(s, w.log, a, 0); }
    forall k | k in t.watched ensures Recorded(s, t, k) { assert Recorded(s, w, k); }
    forall k | k in t.comparedAt ensures Confirmed(s, t, k) { assert Confirmed(s, w, k); }
  }

  lemma AtEnd(s: State, log: seq<Action>)
    requires After(s, log).Some?
    ensures At(s, log, |log|) == After(s, log).value
  {
    assert log[..|log|] == log;
  }

  lemma WatchInv(s: State, w: World, k: bytes)
    requires TxInv(s, w) && Can(w, WatchKey(k))
    ensures TxInv(s, Next(w, WatchKey(k)))
  {
    AtEnd(s, w.log);
    hide At, Version;
    var t := Next(w, WatchKey(k));
    forall j | j in t.watched ensures Recorded(s, t, j) {
      if j != k { assert Recorded(s, w, j); }
    }
  }

  lemma CompareInv(s: State, w: World, k: bytes)
    requires TxInv(s, w) && Can(w, Compare(k))
    ensures TxInv(s, Next(w, Compare(k)))
  {
    AtEnd(s, w.log);
    hide At, Version;
    var t := Next(w, Compare(k));
    forall j | j in t.watched ensures Recorded(s, t, j) { assert Recorded(s, w, j); }
    forall j | j in t.comparedAt ensures Confirmed(s, t, j) {
      assert Recorded(s, w, k);
      if j in w.comparedAt && j != k { assert Confirmed(s, w, j); }
    }
  }

  lemma PlainInv(s: State, w: World, e: Event)
    requires TxInv(s, w) && Can(w, e) && (e.Exec? || e.Start?)
    ensures TxInv(s, Next(w, e))
  {
    hide At, Version;
    var t := Next(w, e);
    forall k | k in t.watched ensures Recorded(s, t, k) { assert Recorded(s, w, k); }
    forall k | k in t.comparedAt ensures Confirmed(s, t, k) { assert Confirmed(s, w, k); }
  }

  lemma NextInv(s: State, w: World, e: Event)
    requires TxInv(s, w) && Can(w, e)
    ensures TxInv(s, Next(w, e))
  {
    match e
    case Other(a) => OtherInv(s, w, a);
    case WatchKey(k) => WatchInv(s, w, k);
    case Compare(k) => CompareInv(s, w, k);
    case Forget =>
    case Exec => PlainInv(s, w, e);
    case Start => PlainInv(s, w, e);
  }

  lemma {:induction false} LeadsInv(s: State, run: seq<Event>)
    requires Leads(Fresh(s), run).Some?
    ensures TxInv(s, Leads(Fresh(s), run).value)
    decreases |run|
  {
    hide TxInv, Can, Next;
    if run == [] {
      FreshInv(s);
    } else {
      var n := |run| - 1;
      LeadsInv(s, run[..n]);
      NextInv(s, Leads(Fresh(s), run[..n]).value, run[n]);
    }
  }

  lemma FreshInv(s: State)
    ensures TxInv(s, Fresh(s))
  { }

  lemma {:induction false} AfterJoin(s: State, xs: seq<Action>, ys: seq<Action>)
    requires After(s, xs + ys).Some?
    ensures After(s, xs).Some? && After(After(s, xs).value, ys) == After(s, xs + ys)
    decreases |ys|
  {
    if ys == [] {
      assert xs + ys == xs;
    } else {
      var n := |ys| - 1;
      assert (xs + ys)[..|xs| + n] == xs + ys[..n];
      AfterJoin(s, xs, ys[..n]);
    }
  }

  /** The changes between two lengths of the log start where the first left the store. */
  lemma Between(s: State, log: seq<Action>, a: nat, b: nat)
    requires After(s, log).Some? && a <= b <= |log|
    ensures After(At(s, log, a), log[a..b]) == Some(At(s, log, b))
  {
    AfterPrefix(s, log, b);
    assert log[..a] + log[a..b] == log[..b];
    AfterJoin(s, log[..a], log[a..b]);
  }

  /** Between two lengths of the log: how often the key was touched, and that no step lost count. */
  ghost function TouchedIn(s: State, log: seq<Action>, a: nat, b: nat, k: bytes): nat
    requires After(s, log).Some? && a <= b <= |log|
  {
    Between(s, log, a, b);
    Touched(At(s, log, a), log[a..b], k)
  }

  ghost predicate RemembersIn(s: State, log: seq<Action>, a: nat, b: nat, k: bytes)
    requires After(s, log).Some? && a <= b <= |log|
  {
    Between(s, log, a, b);
    Remembers(At(s, log, a), log[a..b], k)
  }

  /** The key's presence, value and expiry are the same all along. */
  ghost predicate Unchanged(s: State, log: seq<Action>, a: nat, b: nat, k: bytes)
    requires After(s, log).Some? && a <= b <= |log|
  {
    forall i :: a <= i <= b ==> SameEntry(At(s, log, a), At(s, log, i), k)
  }

  predicate SameEntry(s: State, t: State, k: bytes)
  {
    (k in s.entries <==> k in t.entries) && (k in s.entries ==> s.entries[k] == t.entries[k])
  }

  lemma SegmentUnchanged(s: State, log: seq<Action>, a: nat, b: nat, k: bytes)
    requires Wrapped(s) && After(s, log).Some? && a <= b <= |log|
    requires RemembersIn(s, log, a, b, k) && TouchedIn(s, log, a, b, k) < UINT64_SIZE
    requires Version(At(s, log, a), k) == Version(At(s, log, b), k)
    ensures Unchanged(s, log, a, b, k)
  {
    hide Version, Wrapped;
    var from := At(s, log, a);
    AtWrapped(s, log, a);
    Between(s, log, a, b);
    forall i | a <= i <= b ensures SameEntry(from, At(s, log, i), k) {
      WatchSound(from, log[a..b], k, i - a);
      Between(s, log, a, i);
      assert log[a..b][..i - a] == log[a..i];
    }
  }

  lemma SegmentTouched(s: State, log: seq<Action>, a: nat, b: nat, k: bytes)
    requires Wrapped(s) && After(s, log).Some? && a <= b <= |log|
    requires RemembersIn(s, log, a, b, k) && Version(At(s, log, a), k) != Version(At(s, log, b), k)
    ensures TouchedIn(s, log, a, b, k) > 0
  {
    hide Version, Wrapped, Touched, Remembers;
    AtWrapped(s, log, a);
    Between(s, log, a, b);
    if Touched(At(s, log, a), log[a..b], k) == 0 {
      UntouchedVersion(At(s, log, a), log[a..b], k);
    }
  }

  lemma UntouchedVersion(s: State, run: seq<Action>, k: bytes)
    requires Wrapped(s) && After(s, run).Some? && Remembers(s, run, k) && Touched(s, run, k) == 0
    ensures Version(After(s, run).value, k) == Version(s, k)
  {
    RunCounts(s, run, k);
  }

  lemma AtWrapped(s: State, log: seq<Action>, a: nat)
    requires Wrapped(s) && After(s, log).Some? && a <= |log|
    ensures Wrapped(At(s, log, a))
  {
    AfterPrefix(s, log, a);
    AfterWrapped(s, log[..a]);
  }

  lemma {:induction false} AfterWrapped(s: State, log: seq<Action>)
    requires Wrapped(s) && After(s, log).Some?
    ensures Wrapped(After(s, log).value)
    decreases |log|
  {
    hide Wrapped, Do;
    if log != [] {
      AfterWrapped(s, log[..|log| - 1]);
      DoWrapped(After(s, log[..|log| - 1]).value, log[|log| - 1]);
    }
  }

  /** A transaction runs its queue only if every watched key was left alone from the moment WATCH
      read its version to the moment EXEC compared it, in every interleaving with other clients,
      as long as in between no step lost count of the key and fewer than 2^64 touched it. */
  lemma TransactionSound(s: State, run: seq<Event>, k: bytes)
    requires Wrapped(s) && Leads(Fresh(s), run).Some?
    requires var w := Leads(Fresh(s), run).value; w.phase.Running? && k in w.watched
    ensures var w := Leads(Fresh(s), run).value;
      && After(s, w.log) == Some(w.store) && Confirmed(s, w, k)
      && var a, b := w.watchedAt[k], w.comparedAt[k];
         (RemembersIn(s, w.log, a, b, k) && TouchedIn(s, w.log, a, b, k) < UINT64_SIZE ==> Unchanged(s, w.log, a, b, k))
  {
    hide RemembersIn, TouchedIn, Unchanged, Wrapped;
    LeadsInv(s, run);
    var w := Leads(Fresh(s), run).value;
    assert Confirmed(s, w, k);
    var a, b := w.watchedAt[k], w.comparedAt[k];
    if RemembersIn(s, w.log, a, b, k) && TouchedIn(s, w.log, a, b, k) < UINT64_SIZE {
      SegmentUnchanged(s, w.log, a, b, k);
    }
  }

  /** It is aborted only if the key compared last was touched since its WATCH, or its count lost. */
  lemma AbortJustified(s: State, run: seq<Event>)
    requires Wrapped(s) && Leads(Fresh(s), run).Some? && Leads(Fresh(s), run).value.phase.Aborting?
    ensures var w := Leads(Fresh(s), run).value; var k, b := w.phase.key, w.phase.at;
      && After(s, w.log) == Some(w.store) && Recorded(s, w, k) && w.watchedAt[k] <= b <= |w.log|
      && var a := w.watchedAt[k];
         (RemembersIn(s, w.log, a, b, k) ==> TouchedIn(s, w.log, a, b, k) > 0)
  {
    hide RemembersIn, TouchedIn, Wrapped;
    LeadsInv(s, run);
    var w := Leads(Fresh(s), run).value;
    var k, b := w.phase.key, w.phase.at;
    var a := w.watchedAt[k];
    if RemembersIn(s, w.log, a, b, k) {
      SegmentTouched(s, w.log, a, b, k);
    }
  }

  /** No more than that is promised: a key that was compared may change before the queue starts. */
  lemma ComparedThenChanged(v: bytes, x: bytes)
    requires v != x
    ensures var run := [WatchKey(K), Exec, Compare(K), Other(Replace(K, Rec(Str(x), None))), Start];
      var w := Leads(Fresh(Held(v)), run);
      w.Some? && w.value.phase.Running? && K in w.value.watched && !SameEntry(Held(v), w.value.store, K)
  {
    var c := Replace(K, Rec(Str(x), None));
    var w0 := Fresh(Held(v));
    var w1 := w0.(watched := map[K := 1], watchedAt := map[K := 0]);
    var w2 := w1.(phase := Comparing({K}));
    var w3 := w1.(phase := Comparing({}), comparedAt := map[K := 0]);
    var w4 := w3.(store := Do(w0.store, c), log := [c]);
    assert w1.watched.Keys == {K} && {K} - {K} == {};
    assert Next(w0, WatchKey(K)) == w1 && Next(w1, Exec) == w2 && Next(w2, Compare(K)) == w3;
    assert Next(w3, Other(c)) == w4;
    hide Can, Next, Leads;
    LeadsStep(w0, [], WatchKey(K), [WatchKey(K)], w0);
    LeadsStep(w0, [WatchKey(K)], Exec, [WatchKey(K), Exec], w1);
    LeadsStep(w0, [WatchKey(K), Exec], Compare(K), [WatchKey(K), Exec, Compare(K)], w2);
    LeadsStep(w0, [WatchKey(K), Exec, Compare(K)], Other(c), [WatchKey(K), Exec, Compare(K), Other(c)], w3);
    LeadsStep(w0, [WatchKey(K), Exec, Compare(K), Other(c)], Start,
              [WatchKey(K), Exec, Compare(K), Other(c), Start], w4);
  }

  lemma LeadsStep(w: World, run: seq<Event>, e: Event, longer: seq<Event>, before: World)
    requires longer == run + [e] && Leads(w, run) == Some(before) && Can(before, e)
    ensures Leads(w, longer) == Some(Next(before, e))
  {
    LeadsOn(w, run, e);
  }

  // ----- sessions ---------------------------------------------------------------------------

  class Database {
    var entries: map<bytes, Rec>
    var versions: map<bytes, nat>

    constructor ()
      ensures Now() == State(map[], map[])
    {
      entries, versions := map[], map[];
    }

    function Now(): State
      reads this
    {
      State(entries, versions)
    }

    method WatchVersion(k: bytes) returns (v: nat)
      ensures v == Version(Now(), k)
    {
      v := if k in versions then versions[k] else 0;
    }

    /** Drops the versions of keys that are gone: a list of candidates is taken first, each is
        looked up, and the dead ones are deleted. */
    method PruneWatch()
      modifies this`versions
      ensures Now() == Do(old(Now()), Prune)
    {
      ghost var before := versions;
      var dead: set<bytes> := {};
      var todo := versions.Keys;
      while todo != {}
        invariant todo <= versions.Keys
        invariant forall k :: k in dead <==> k in versions && k !in todo && k !in entries
        invariant versions == before
      {
        var k :| k in todo;
        todo := todo - {k};
        if k !in entries { dead := dead + {k}; }
      }
      while dead != {}
        invariant forall k :: k in versions <==> k in before && (k in entries || k in dead)
        invariant forall k :: k in versions ==> versions[k] == before[k]
      {
        var k :| k in dead;
        versions := versions - {k};
        dead := dead - {k};
        assert forall j :: j in versions <==> j in before && (j in entries || j in dead);
      }
      assert versions == Do(State(entries, before), Prune).versions;
    }

    method Mutate(a: Action)
      requires Enabled(Now(), a)
      modifies this
      ensures Now() == Do(old(Now()), a)
    {
      match a {
        case Purge(k) =>
          entries := entries - {k};
          versions := Bumped(versions, k);
        case Replace(k, r) =>
          entries := entries[k := r];
          versions := Bumped(versions, k);
        case Rename(src, dst) =>
          if src != dst {
            var r := entries[src];
            if dst in entries {
              entries := entries - {dst};
              versions := Bumped(versions, dst);
            }
            entries := entries - {src};
            entries := entries[dst := r];
            versions := Bumped(versions, dst);
          }
        case Flush => entries, versions := map[], map[];
        case Prune => PruneWatch();
      }
    }

    /** Changes that other clients make meanwhile; one that cannot happen does not. */
    method Others(changes: seq<Action>, ghost w: World, ghost run: seq<Event>) returns (ghost more: seq<Event>)
      requires Leads(w, run).Some? && Leads(w, run).value.store == Now()
      modifies this
      ensures Moved(w, run, more, Now()) && (changes == [] ==> Now() == old(Now()))
    {
      more := run;
      for i := 0 to |changes|
        invariant Moved(w, run, more, Now()) && (i == 0 ==> Now() == old(Now()))
      {
        if Enabled(Now(), changes[i]) {
          LeadsOn(w, more, Other(changes[i]));
          more := more + [Other(changes[i])];
          Mutate(changes[i]);
        }
      }
    }
  }

  /** The store has moved on to `now`; the transaction has not. */
  ghost predicate Moved(w: World, run: seq<Event>, more: seq<Event>, now: State)
  {
    && Leads(w, run).Some? && Leads(w, more).Some? && Leads(w, more).value.store == now
    && Leads(w, more).value.watched == Leads(w, run).value.watched
    && Leads(w, more).value.phase == Leads(w, run).value.phase
  }

  datatype Outcome<T> = NotInMulti | Aborted | Ran(queue: seq<T>)

  /** A client's transaction state; what is queued is of no concern here. */
  class Session<T> {
    var inMulti: bool
    var queue: seq<T>
    var watched: map<bytes, nat>

    constructor ()
      ensures !inMulti && queue == [] && watched == map[]
    {
      inMulti, queue, watched := false, [], map[];
    }

    method Multi() returns (ok: bool)
      modifies this
      ensures ok == !old(inMulti) && inMulti && watched == old(watched)
      ensures queue == if ok then [] else old(queue)
    {
      if inMulti { return false; }
      inMulti, queue := true, [];
      ok := true;
    }

    method Discard() returns (ok: bool)
      modifies this
      ensures ok == old(inMulti) && !inMulti && watched == old(watched)
      ensures queue == if ok then [] else old(queue)
    {
      if !inMulti { return false; }
      inMulti, queue := false, [];
      ok := true;
    }

    /** Records the present version of every named key, over what was recorded for it before.
        `others(i)` is what other clients do just before the i-th version is read. */
    method Watch(db: Database, keys: seq<bytes>, others: nat -> seq<Action>, ghost w: World)
      returns (ghost run: seq<Event>)
      requires w.store == db.Now() && w.watched == watched && w.phase.Idle?
      modifies this, db
      ensures inMulti == old(inMulti) && queue == old(queue)
      ensures forall k :: k in watched <==> k in old(watched) || k in keys
      ensures forall k :: k in old(watched) && k !in keys ==> watched[k] == old(watched)[k]
      ensures Leads(w, run).Some? && Leads(w, run).value.store == db.Now()
      ensures Leads(w, run).value.watched == watched && Leads(w, run).value.phase.Idle?
      ensures (forall i :: others(i) == []) ==> forall k :: k in keys ==> watched[k] == Version(old(db.Now()), k)
    {
      hide Next, Version;
      run := [];
      ghost var quiet := forall i :: others(i) == [];
      for i := 0 to |keys|
        invariant inMulti == old(inMulti) && queue == old(queue)
        invariant forall k :: k in watched <==> k in old(watched) || k in keys[..i]
        invariant forall k :: k in old(watched) && k !in keys[..i] ==> watched[k] == old(watched)[k]
        invariant Leads(w, run).Some? && Leads(w, run).value.store == db.Now()
        invariant Leads(w, run).value.watched == watched && Leads(w, run).value.phase.Idle?
        invariant quiet ==> db.Now() == old(db.Now()) && forall k :: k in keys[..i] ==> watched[k] == Version(db.Now(), k)
      {
        assert keys[..i + 1] == keys[..i] + [keys[i]];
        run := db.Others(others(i), w, run);
        run := WatchOne(db, keys[i], w, run);
      }
      assert keys[..|keys|] == keys;
    }

    method WatchOne(db: Database, key: bytes, ghost w: World, ghost run: seq<Event>) returns (ghost more: seq<Event>)
      requires Leads(w, run).Some? && Leads(w, run).value.store == db.Now()
      requires Leads(w, run).value.watched == watched && Leads(w, run).value.phase.Idle?
      modifies this`watched
      ensures watched == old(watched)[key := Version(db.Now(), key)]
      ensures Leads(w, more).Some? && Leads(w, more).value.store == db.Now()
      ensures Leads(w, more).value.watched == watched && Leads(w, more).value.phase.Idle?
    {
      LeadsOn(w, run, WatchKey(key));
      more := run + [WatchKey(key)];
      var v := db.WatchVersion(key);
      watched := watched[key := v];
    }

    method Unwatch()
      modifies this`watched
      ensures watched == map[]
    {
      watched := map[];
    }

    /** Compares the recorded versions one by one; the queue runs if and only if all of them were
        current, and either way the transaction and its watches are over. */
    method Exec(db: Database, others: nat -> seq<Action>, ghost w: World)
      returns (r: Outcome<T>, ghost run: seq<Event>)
      requires w.store == db.Now() && w.watched == watched && w.phase.Idle?
      modifies this, db
      ensures r.NotInMulti? <==> !old(inMulti)
      ensures r.NotInMulti? ==> watched == old(watched) && queue == old(queue)
      ensures old(inMulti) ==> !inMulti && queue == [] && watched == map[]
      ensures Leads(w, run).Some? && Leads(w, run).value.store == db.Now()
      ensures Leads(w, run).value.watched == old(watched)
      ensures r.Ran? <==> Leads(w, run).value.phase.Running?
      ensures r.Aborted? <==> Leads(w, run).value.phase.Aborting?
      ensures r.Ran? ==> r.queue == old(queue)
      ensures (forall i :: others(i) == []) ==>
        (r.Ran? <==> old(inMulti) && forall k :: k in old(watched) ==> old(watched)[k] == Version(old(db.Now()), k))
    {
      hide Version;
      run := [];
      if !inMulti { return NotInMulti, run; }
      var q := queue;
      inMulti, queue := false, [];
      LeadsOn(w, run, Event.Exec);
      run := run + [Event.Exec];
      var same;
      same, run := Confirm(db, others, w, run);
      watched := map[];
      r := if same then Ran(q) else Aborted;
    }

    /** The loop over the watched keys: it stops at the first version that is not current. */
    method Confirm(db: Database, others: nat -> seq<Action>, ghost w: World, ghost run: seq<Event>)
      returns (same: bool, ghost more: seq<Event>)
      requires Leads(w, run).Some? && Leads(w, run).value.store == db.Now()
      requires Leads(w, run).value.watched == watched && Leads(w, run).value.phase == Comparing(watched.Keys)
      modifies db
      ensures Leads(w, more).Some? && Leads(w, more).value.store == db.Now()
      ensures Leads(w, more).value.watched == watched
      ensures if same then Leads(w, more).value.phase.Running? else Leads(w, more).value.phase.Aborting?
      ensures (forall i :: others(i) == []) ==>
        (same <==> forall k :: k in watched ==> watched[k] == Version(old(db.Now()), k))
    {
      hide Version, Next;
      more := run;
      ghost var quiet := forall i :: others(i) == [];
      var todo, i := watched.Keys, 0;
      while todo != {}
        invariant todo <= watched.Keys && Leads(w, more).Some? && Leads(w, more).value.store == db.Now()
        invariant Leads(w, more).value.watched == watched && Leads(w, more).value.phase == Comparing(todo)
        invariant quiet ==> db.Now() == old(db.Now())
        invariant quiet ==> forall k :: k in watched && k !in todo ==> watched[k] == Version(db.Now(), k)
        decreases todo
      {
        var k :| k in todo;
        more := db.Others(others(i), w, more);
        var v := db.WatchVersion(k);
        CompareOne(w, more, k);
        more := more + [Compare(k)];
        if v != watched[k] { return false, more; }
        todo, i := todo - {k}, i + 1;
      }
      StartNow(w, more);
      more := more + [Start];
      same := true;
    }
  }

  lemma CompareOne(w: World, run: seq<Event>, k: bytes)
    requires Leads(w, run).Some? && Can(Leads(w, run).value, Compare(k))
    ensures var before, after := Leads(w, run).value, Leads(w, run + [Compare(k)]);
      && after.Some? && after.value.store == before.store && after.value.watched == before.watched
      && if Version(before.store, k) == before.watched[k] then after.value.phase == Comparing(before.phase.todo - {k})
         else after.value.phase.Aborting?
  {
    LeadsOn(w, run, Compare(k));
  }

  lemma StartNow(w: World, run: seq<Event>)
    requires Leads(w, run).Some? && Can(Leads(w, run).value, Start)
    ensures var before, after := Leads(w, run).value, Leads(w, run + [Start]);
      && after.Some? && after.value.store == before.store && after.value.watched == before.watched
      && after.value.phase.Running?
  {
    LeadsOn(w, run, Start);
  }
}
