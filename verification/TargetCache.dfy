/** The generation-tagged cache of the link selection, read without the lock that guards the
    membership. Any number of readers interleave with each other, with one writer at a time
    and with links being stopped. */
module TargetCache {
  import opened Bytes
  import opened Links

  /** The membership a generation stands for, and the links already stopped by then. */
  datatype Membership = Membership(out: seq<Link>, stopped: set<nat>)

  datatype Tagged = Tagged(gen: nat, links: set<Link>)

  /** Where a call of `replicationTargets` is. */
  datatype Reader =
    | Idle
    | Loaded(gen: nat)
    | Missed(gen: nat)
    | Computing(gen: nat, since: set<nat>)
    | Computed(gen: nat, links: set<Link>)
    | Returned(gen: nat, links: set<Link>, hit: bool)

  /** Where the holder of the membership lock is. */
  datatype Writer = Free | Held | Changed

  datatype State = State(
    out: seq<Link>,
    stopped: set<nat>,
    gen: nat,
    cache: Option<Tagged>,
    readers: map<nat, Reader>,
    lock: Writer,
    history: seq<Membership>)

  const INITIAL := State([], {}, 0, None, map[], Free, [Membership([], {})])

  /** The atomic steps. A selection is computed under the read lock, but the stop flags are read
      link by link while links go on being stopped: `seen` is what the flags said. `Mutate` installs
      any membership whatever, which covers registration and both removals; `Bump` also releases
      the lock. */
  datatype Action =
    | LoadGen(r: nat)
    | LoadCache(r: nat)
    | Begin(r: nat)
    | Compute(r: nat, seen: set<nat>)
    | StoreCache(r: nat)
    | Lock
    | Mutate(newOut: seq<Link>)
    | Bump
    | Stop(linkSeq: nat)

  function At(s: State, r: nat): Reader { if r in s.readers then s.readers[r] else Idle }

  predicate Enabled(s: State, a: Action)
  {
    match a
    case LoadGen(r) => At(s, r).Idle? || At(s, r).Returned?
    case LoadCache(r) => At(s, r).Loaded?
    case Begin(r) => At(s, r).Missed? && s.lock.Free? // takes the read lock
    case Compute(r, seen) => At(s, r).Computing? && At(s, r).since <= seen <= s.stopped // and gives it back
    case StoreCache(r) => At(s, r).Computed?
    case Lock => s.lock.Free? && forall r :: r in s.readers ==> !s.readers[r].Computing?
    case Mutate(_) => s.lock.Held?
    case Bump => s.lock.Changed?
    case Stop(_) => true
  }

  ghost function Do(s: State, a: Action): State
    requires Enabled(s, a)
  {
    match a
    case LoadGen(r) => s.(readers := s.readers[r := Loaded(s.gen)])
    case LoadCache(r) =>
      var g := At(s, r).gen;
      if s.cache.Some? && s.cache.value.gen == g
      then s.(readers := s.readers[r := Returned(g, s.cache.value.links, true)])
      else s.(readers := s.readers[r := Missed(g)])
    case Begin(r) => s.(readers := s.readers[r := Computing(At(s, r).gen, s.stopped)])
    case Compute(r, seen) => s.(readers := s.readers[r := Computed(At(s, r).gen, Selection(s.out, seen))])
    case StoreCache(r) =>
      var p := At(s, r);
      s.(cache := Some(Tagged(p.gen, p.links)), readers := s.readers[r := Returned(p.gen, p.links, false)])
    case Lock => s.(lock := Held)
    case Mutate(newOut) => s.(lock := Changed, out := newOut)
    case Bump =>
      s.(lock := Free, gen := s.gen + 1, history := s.history + [Membership(s.out, s.stopped)])
    case Stop(q) => s.(stopped := s.stopped + {q})
  }

  /** The state after a run, if every step of it was possible. */
  ghost function After(run: seq<Action>): Option<State>
  {
    if run == [] then Some(INITIAL)
    else
      match After(run[..|run| - 1])
      case None => None
      case Some(s) => if Enabled(s, run[|run| - 1]) then Some(Do(s, run[|run| - 1])) else None
  }

  /** `links` is the selection of membership number `j` with exactly `st` stopped. */
  ghost predicate SelectedFrom(s: State, j: nat, st: set<nat>, links: set<Link>)
  {
    j < |s.history| && links == Selection(s.history[j].out, st)
  }

  /** `links` is a selection of the membership of generation `g` or a later one, blind only to
      links stopped after generation `g` was published. */
  ghost predicate Coherent(s: State, g: nat, links: set<Link>)
  {
    && g < |s.history|
    && exists j, st :: g <= j && s.history[g].stopped <= st <= s.stopped && SelectedFrom(s, j, st, links)
  }

  ghost predicate ReaderCoherent(s: State, p: Reader)
  {
    match p
    case Idle => true
    case Loaded(g) => g <= s.gen
    case Missed(g) => g <= s.gen
    case Computing(g, since) =>
      s.lock.Free? && g < |s.history| && s.history[g].stopped <= since <= s.stopped
    case Computed(g, links) => Coherent(s, g, links)
    case Returned(g, links, _) => Coherent(s, g, links)
  }

  ghost predicate Inv(s: State)
  {
    && |s.history| == s.gen + 1
    && (!s.lock.Changed? ==> s.out == s.history[s.gen].out)
    && (forall i :: 0 <= i <= s.gen ==> s.history[i].stopped <= s.stopped)
    && (s.cache.Some? ==> Coherent(s, s.cache.value.gen, s.cache.value.links))
    && (forall r :: r in s.readers ==> ReaderCoherent(s, s.readers[r]))
  }

  /** What was coherent stays coherent while the world moves on. */
  lemma CoherentLater(s: State, t: State, g: nat, links: set<Link>)
    requires Coherent(s, g, links) && s.stopped <= t.stopped && s.history <= t.history
    ensures Coherent(t, g, links)
  {
    var j, st :| g <= j && s.history[g].stopped <= st <= s.stopped && SelectedFrom(s, j, st, links);
    assert SelectedFrom(t, j, st, links);
  }

  lemma StepInv(s: State, a: Action)
    requires Inv(s) && Enabled(s, a)
    ensures Inv(Do(s, a))
  {
    var t := Do(s, a);
    forall p: Reader | ReaderCoherent(s, p) && !(a.Lock? && p.Computing?) ensures ReaderCoherent(t, p) {
      if p.Computed? || p.Returned? { CoherentLater(s, t, p.gen, p.links); }
    }
    if s.cache.Some? { CoherentLater(s, t, s.cache.value.gen, s.cache.value.links); }
    if a.Compute? {
      assert ReaderCoherent(s, At(s, a.r));
      var links := Selection(s.out, a.seen);
      assert SelectedFrom(s, s.gen, a.seen, links);
      assert Coherent(s, At(s, a.r).gen, links);
      CoherentLater(s, t, At(s, a.r).gen, links);
    }
  }

  /** In every interleaving, every selection handed out, cached or fresh, is coherent with the
      generation its reader saw: never older. */
  lemma {:induction false} CacheCoherent(run: seq<Action>)
    requires After(run).Some?
    ensures Inv(After(run).value)
    decreases |run|
  {
    if run != [] {
      CacheCoherent(run[..|run| - 1]);
      StepInv(After(run[..|run| - 1]).value, run[|run| - 1]);
    }
  }

  /** Once a removal is published, a reader that loads its generation afterwards is never
      given the removed link again. */
  lemma RemovedNeverServed(run: seq<Action>, r: nat, l: Link)
    requires After(run).Some? && r in After(run).value.readers && After(run).value.readers[r].Returned?
    requires var s := After(run).value;
             forall j :: s.readers[r].gen <= j < |s.history| ==> l !in s.history[j].out
    ensures l !in After(run).value.readers[r].links
  {
    CacheCoherent(run);
    var s := After(run).value;
    var p := s.readers[r];
    var j, st :| p.gen <= j && s.history[p.gen].stopped <= st <= s.stopped && SelectedFrom(s, j, st, p.links);
  }

  /** A link handed out although stopped was stopped only after the generation in use was
      published: stopping a link does not invalidate the cache, publishing does. */
  lemma StoppedBeforeNeverServed(run: seq<Action>, r: nat, l: Link)
    requires After(run).Some? && r in After(run).value.readers && After(run).value.readers[r].Returned?
    requires After(run).value.readers[r].gen < |After(run).value.history|
    requires l.linkSeq in After(run).value.history[After(run).value.readers[r].gen].stopped
    ensures l !in After(run).value.readers[r].links
  {
    CacheCoherent(run);
    var s := After(run).value;
    var p := s.readers[r];
    var j, st :| p.gen <= j && s.history[p.gen].stopped <= st <= s.stopped && SelectedFrom(s, j, st, p.links);
  }

  lemma AfterSnoc(run: seq<Action>, s: State, a: Action)
    requires After(run) == Some(s) && Enabled(s, a)
    ensures After(run + [a]) == Some(Do(s, a))
  {
    assert (run + [a])[..|run|] == run;
  }

  /** The steps of a reader that finds the cache stale, then of one that finds its result there
      after a link was stopped. */
  function Refill(r: nat, seen: set<nat>): seq<Action>
  {
    [LoadGen(r), LoadCache(r), Begin(r), Compute(r, seen), StoreCache(r)]
  }

  lemma Refilled(run: seq<Action>, s: State, r: nat)
    requires After(run) == Some(s) && s.lock.Free? && (At(s, r).Idle? || At(s, r).Returned?)
    requires s.cache.Some? ==> s.cache.value.gen != s.gen
    ensures var links := Selection(s.out, s.stopped);
      After(run + Refill(r, s.stopped))
        == Some(s.(cache := Some(Tagged(s.gen, links)), readers := s.readers[r := Returned(s.gen, links, false)]))
  {
    hide After, Selection;
    var g, links := s.gen, Selection(s.out, s.stopped);
    var s1 := s.(readers := s.readers[r := Loaded(g)]);
    var s2 := s.(readers := s.readers[r := Missed(g)]);
    var s3 := s.(readers := s.readers[r := Computing(g, s.stopped)]);
    var s4 := s.(readers := s.readers[r := Computed(g, links)]);
    AfterSnoc(run, s, LoadGen(r));
    assert Do(s1, LoadCache(r)) == s2;
    AfterSnoc(run + [LoadGen(r)], s1, LoadCache(r));
    assert Do(s2, Begin(r)) == s3;
    AfterSnoc(run + [LoadGen(r)] + [LoadCache(r)], s2, Begin(r));
    assert Do(s3, Compute(r, s.stopped)) == s4;
    AfterSnoc(run + [LoadGen(r)] + [LoadCache(r)] + [Begin(r)], s3, Compute(r, s.stopped));
    assert Do(s4, StoreCache(r)).readers == s.readers[r := Returned(g, links, false)];
    AfterSnoc(run + [LoadGen(r)] + [LoadCache(r)] + [Begin(r)] + [Compute(r, s.stopped)], s4, StoreCache(r));
    assert run + [LoadGen(r)] + [LoadCache(r)] + [Begin(r)] + [Compute(r, s.stopped)] + [StoreCache(r)]
        == run + Refill(r, s.stopped);
  }

  /** The window that remains, in every run: a link selected when a generation is published, and
      stopped only after that, can still be handed out at that generation by a cache hit. */
  lemma StoppedLaterServed(run: seq<Action>, r: nat, l: Link) returns (more: seq<Action>)
    requires After(run).Some? && After(run + [Bump]).Some?
    requires At(After(run + [Bump]).value, r).Idle? || At(After(run + [Bump]).value, r).Returned?
    requires var s := After(run + [Bump]).value; l in Selection(s.out, s.stopped)
    ensures var s, t := After(run + [Bump]).value, After(run + [Bump] + more);
      && t.Some? && l.linkSeq in t.value.stopped && t.value.history == s.history
      && At(t.value, r) == Returned(s.gen, Selection(s.out, s.stopped), true)
  {
    hide Selection;
    var all := run + [Bump];
    var s := After(all).value;
    PublishedStale(run);
    Refilled(all, s, r);
    hide After;
    var first := all + Refill(r, s.stopped);
    var s1 := After(first).value;
    var s2 := s1.(stopped := s1.stopped + {l.linkSeq});
    AfterSnoc(first, s1, Stop(l.linkSeq));
    AfterSnoc(first + [Stop(l.linkSeq)], s2, LoadGen(r));
    AfterSnoc(first + [Stop(l.linkSeq)] + [LoadGen(r)], Do(s2, LoadGen(r)), LoadCache(r));
    more := Refill(r, s.stopped) + [Stop(l.linkSeq), LoadGen(r), LoadCache(r)];
    assert first + [Stop(l.linkSeq)] + [LoadGen(r)] + [LoadCache(r)] == all + more;
  }

  /** The shortest such run. */
  lemma StoppedLinkStillServed(l: Link) returns (run: seq<Action>)
    requires l.hasQueue
    ensures After(run).Some? && l.linkSeq in After(run).value.stopped
    ensures At(After(run).value, 0) == Returned(1, {l}, true)
  {
    AfterSnoc([], INITIAL, Lock);
    AfterSnoc([] + [Lock], Do(INITIAL, Lock), Mutate([l]));
    var start := [] + [Lock] + [Mutate([l])];
    var s := Do(Do(INITIAL, Lock), Mutate([l]));
    AfterSnoc(start, s, Bump);
    assert IsChosen([l], {}, l);
    assert Selection([l], {}) == {l};
    var more := StoppedLaterServed(start, 0, l);
    run := start + [Bump] + more;
  }

  /** Just after a publication the lock is free and nothing in the cache is current. */
  lemma PublishedStale(run: seq<Action>)
    requires After(run).Some? && After(run + [Bump]).Some?
    ensures var s := After(run + [Bump]).value; s.lock.Free? && (s.cache.Some? ==> s.cache.value.gen != s.gen)
  {
    assert (run + [Bump])[..|run|] == run;
    CacheCoherent(run);
    hide Coherent, ReaderCoherent;
    var s := After(run).value;
    if s.cache.Some? { TagOld(s); }
  }

  lemma TagOld(s: State)
    requires Inv(s) && s.cache.Some?
    ensures s.cache.value.gen <= s.gen
  { }
}
