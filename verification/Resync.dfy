/** The resync scheduler: requests race over three atomics (`resyncing`, `resyncPending`,
    `lastResync`), each of their loads and stores a step of its own. */
module Resync {
  import opened Bytes

  const NANOS_PER_MILLI: int := 1_000_000
  const MILLIS_PER_SECOND: int := 1_000

  /** Where one call of `RequestResync`, or the resync it started, is. `refusal` numbers the
      refusal a call has decided on. */
  datatype Phase =
    | Idle
    | Busy(refusal: nat)          // the swap failed; the pending mark is still to be set
    | Holding                     // the swap succeeded
    | Clocked(now: int)           // the time is read
    | TooSoon(refusal: nat)       // refused; `resyncing` is still to be cleared
    | Released(refusal: nat)      // `resyncing` cleared; the pending mark is still to be set
    | Approved(now: int)
    | Stamped                     // the start time is recorded
    | Cleared                     // the pending mark is cleared; the resync is about to begin
    | Running

  /** A refusal: how many resyncs had begun when it was decided, and whether the call is over. */
  datatype Refusal = Refusal(begunBefore: nat, returned: bool)

  /** The bootstrap a server does when it starts, before any resync. */
  datatype FirstSync = NotYet | UnderWay | Over

  datatype State = State(
    first: FirstSync,
    resyncing: bool,
    pending: bool,
    last: int,
    context: bool,
    calls: map<nat, Phase>,
    starts: seq<int>,
    begun: nat,
    refusals: seq<Refusal>,
    dropped: nat)

  const INITIAL := State(NotYet, false, false, 0, false, map[], [], 0, [], 0)

  datatype Action =
    | SetContext
    | StartFirst
    | FinishFirst
    | Swap(c: nat)
    | ReadClock(c: nat, now: int)
    | CheckInterval(c: nat)
    | Release(c: nat)
    | MarkPending(c: nat)
    | Drop(c: nat)
    | Stamp(c: nat)
    | ClearPending(c: nat)
    | Begin(c: nat)
    | Finish(c: nat)

  function At(s: State, c: nat): Phase { if c in s.calls then s.calls[c] else Idle }

  predicate Enabled(s: State, a: Action)
  {
    match a
    case SetContext => true
    case StartFirst => s.context && s.first.NotYet?
    case FinishFirst => s.first.UnderWay?
    case Swap(c) => At(s, c).Idle?
    case ReadClock(c, now) => At(s, c).Holding? && now >= NANOS_PER_MILLI
    case CheckInterval(c) => At(s, c).Clocked?
    case Release(c) => At(s, c).TooSoon?
    case MarkPending(c) => At(s, c).Busy? || At(s, c).Released?
    case Drop(c) => At(s, c).Approved? && !s.context
    case Stamp(c) => At(s, c).Approved? && s.context
    case ClearPending(c) => At(s, c).Stamped?
    case Begin(c) => At(s, c).Cleared?
    case Finish(c) => At(s, c).Running?
  }

  function Put(s: State, c: nat, p: Phase): State { s.(calls := s.calls[c := p]) }

  /** The rate limit: a previous start is known and too recent. The clock is in nanoseconds,
      the recorded start in milliseconds. */
  predicate WithinInterval(s: State, now: int, minSeconds: nat)
  {
    s.last != 0 && now - s.last * NANOS_PER_MILLI < minSeconds * MILLIS_PER_SECOND * NANOS_PER_MILLI
  }

  function Refuse(s: State): State { s.(refusals := s.refusals + [Refusal(s.begun, false)]) }

  /** The refused call number `i` is over. */
  function Return(rs: seq<Refusal>, i: nat): seq<Refusal>
  {
    if i < |rs| then rs[i := rs[i].(returned := true)] else rs
  }

  function Do(s: State, a: Action, minSeconds: nat): State
    requires Enabled(s, a)
  {
    match a
    case SetContext => s.(context := true)
    case StartFirst => s.(first := UnderWay)
    case FinishFirst => s.(first := Over)
    case Swap(c) =>
      if s.resyncing then Put(Refuse(s), c, Busy(|s.refusals|))
      else Put(s.(resyncing := true), c, Holding)
    case ReadClock(c, now) => Put(s, c, Clocked(now))
    case CheckInterval(c) =>
      if WithinInterval(s, At(s, c).now, minSeconds) then Put(Refuse(s), c, TooSoon(|s.refusals|))
      else Put(s, c, Approved(At(s, c).now))
    case Release(c) => Put(s.(resyncing := false), c, Released(At(s, c).refusal))
    case MarkPending(c) =>
      Put(s.(pending := true, refusals := Return(s.refusals, At(s, c).refusal)), c, Idle)
    case Drop(c) => Put(s.(resyncing := false, dropped := s.dropped + 1), c, Idle)
    case Stamp(c) =>
      var ms := At(s, c).now / NANOS_PER_MILLI;
      Put(s.(last := ms, starts := s.starts + [ms]), c, Stamped)
    case ClearPending(c) => Put(s.(pending := false), c, Cleared)
    case Begin(c) => Put(s.(begun := s.begun + 1), c, Running)
    case Finish(c) => Put(s.(resyncing := false), c, Idle)
  }

  /** A call owns the `resyncing` flag from its successful swap until it clears it. */
  predicate Owns(p: Phase)
  {
    p.Holding? || p.Clocked? || p.TooSoon? || p.Approved? || p.Stamped? || p.Cleared? || p.Running?
  }

  /** A resync counts as running from the recorded start to its end. */
  predicate InResync(p: Phase) { p.Stamped? || p.Cleared? || p.Running? }

  /** Nothing asked for is forgotten: still pending, about to be served, or served since. */
  ghost predicate Remembered(s: State, r: Refusal)
  {
    s.pending || (exists c :: c in s.calls && s.calls[c].Cleared?) || s.begun > r.begunBefore
  }

  predicate HasRefusal(p: Phase) { p.Busy? || p.TooSoon? || p.Released? }

  /** One owner at most, and never without the flag. */
  ghost predicate Exclusive(s: State)
  {
    && (forall c, d :: c in s.calls && d in s.calls && Owns(s.calls[c]) && Owns(s.calls[d]) ==> c == d)
    && (s.resyncing <==> exists c :: c in s.calls && Owns(s.calls[c]))
  }

  predicate PhaseTimed(p: Phase, s: State, minSeconds: nat)
  {
    match p
    case Clocked(now) => now >= NANOS_PER_MILLI
    case Approved(now) => now >= NANOS_PER_MILLI && !WithinInterval(s, now, minSeconds)
    case _ => true
  }

  /** The clock readings in flight, and the recorded starts. */
  ghost predicate Timed(s: State, minSeconds: nat)
  {
    && (forall c :: c in s.calls ==> PhaseTimed(s.calls[c], s, minSeconds))
    && (if s.starts == [] then s.last == 0 else s.last == s.starts[|s.starts| - 1] >= 1)
    && Spaced(s.starts, minSeconds)
  }

  ghost predicate Numbered(s: State)
  {
    && (forall c :: c in s.calls && HasRefusal(s.calls[c]) ==> s.calls[c].refusal < |s.refusals|)
    && (forall i :: 0 <= i < |s.refusals| ==> s.refusals[i].begunBefore <= s.begun)
  }

  ghost predicate AllRemembered(s: State)
  {
    forall i :: 0 <= i < |s.refusals| && s.refusals[i].returned ==> Remembered(s, s.refusals[i])
  }

  ghost predicate Inv(s: State, minSeconds: nat)
  {
    Exclusive(s) && Timed(s, minSeconds) && Numbered(s) && AllRemembered(s)
  }

  /** Successive recorded starts are at least the minimum interval apart. */
  predicate Spaced(starts: seq<int>, minSeconds: nat)
  {
    forall i :: 0 < i < |starts| ==> starts[i] - starts[i - 1] >= minSeconds * MILLIS_PER_SECOND
  }

  /** The state after a run, if every step of it was possible. */
  function After(run: seq<Action>, minSeconds: nat): Option<State>
  {
    if run == [] then Some(INITIAL)
    else
      match After(run[..|run| - 1], minSeconds)
      case None => None
      case Some(s) => if Enabled(s, run[|run| - 1]) then Some(Do(s, run[|run| - 1], minSeconds)) else None
  }

  lemma StillRemembered(s: State, t: State, r: Refusal)
    requires Remembered(s, r) && s.begun <= t.begun
    requires s.pending ==> t.pending || exists c :: c in t.calls && t.calls[c].Cleared?
    requires forall c :: c in s.calls && s.calls[c].Cleared? && t.begun == s.begun ==>
               c in t.calls && t.calls[c].Cleared?
    requires r.begunBefore <= s.begun
    ensures Remembered(t, r)
  {
  }

  lemma StampSpaced(s: State, now: int, minSeconds: nat)
    requires if s.starts == [] then s.last == 0 else s.last == s.starts[|s.starts| - 1] >= 1
    requires Spaced(s.starts, minSeconds) && now >= NANOS_PER_MILLI && !WithinInterval(s, now, minSeconds)
    ensures Spaced(s.starts + [now / NANOS_PER_MILLI], minSeconds) && now / NANOS_PER_MILLI >= 1
  {
  }

  lemma StepRemembers(s: State, a: Action, minSeconds: nat)
    requires Numbered(s) && AllRemembered(s) && Enabled(s, a)
    ensures AllRemembered(Do(s, a, minSeconds))
  {
    var t := Do(s, a, minSeconds);
    forall i | 0 <= i < |t.refusals| && t.refusals[i].returned ensures Remembered(t, t.refusals[i]) {
      if a.ClearPending? {
        assert t.calls[a.c].Cleared?;
      } else if i < |s.refusals| && s.refusals[i].returned {
        StillRemembered(s, t, s.refusals[i]);
      }
    }
  }

  /** The steps of the server itself. */
  predicate Serving(a: Action) { a.SetContext? || a.StartFirst? || a.FinishFirst? }

  /** Any other step moves one call only. */
  lemma OthersUnmoved(s: State, a: Action, minSeconds: nat)
    requires Enabled(s, a)
    ensures var t := Do(s, a, minSeconds);
            if Serving(a) then t.calls == s.calls
            else a.c in t.calls && forall c :: c != a.c ==> (c in t.calls <==> c in s.calls) && At(t, c) == At(s, c)
  {
  }

  lemma StepExclusive(s: State, a: Action, minSeconds: nat)
    requires Exclusive(s) && Enabled(s, a)
    ensures Exclusive(Do(s, a, minSeconds))
  {
    hide WithinInterval;
    var t := Do(s, a, minSeconds);
    OthersUnmoved(s, a, minSeconds);
    if !Serving(a) && Owns(t.calls[a.c]) {
      assert Owns(At(s, a.c)) || !s.resyncing;
    }
    if t.resyncing {
      if s.resyncing {
        var c :| c in s.calls && Owns(s.calls[c]);
        assert c in t.calls && Owns(t.calls[c]);
      } else {
        assert Owns(t.calls[a.c]);
      }
    }
  }

  lemma StepTimed(s: State, a: Action, minSeconds: nat)
    requires Exclusive(s) && Timed(s, minSeconds) && Enabled(s, a)
    ensures Timed(Do(s, a, minSeconds), minSeconds)
  {
    var t := Do(s, a, minSeconds);
    forall c | c in t.calls ensures PhaseTimed(t.calls[c], t, minSeconds) { CallTimed(s, a, minSeconds, c); }
    hide PhaseTimed;
    if a.Stamp? {
      assert PhaseTimed(s.calls[a.c], s, minSeconds);
      ApprovedTimed(s, a.c, minSeconds);
      StampSpaced(s, At(s, a.c).now, minSeconds);
    }
  }

  lemma ApprovedTimed(s: State, c: nat, minSeconds: nat)
    requires Timed(s, minSeconds) && At(s, c).Approved?
    ensures At(s, c).now >= NANOS_PER_MILLI && !WithinInterval(s, At(s, c).now, minSeconds)
  {
    assert PhaseTimed(s.calls[c], s, minSeconds);
  }

  lemma CallTimed(s: State, a: Action, minSeconds: nat, c: nat)
    requires Exclusive(s) && Timed(s, minSeconds) && Enabled(s, a) && c in Do(s, a, minSeconds).calls
    ensures PhaseTimed(Do(s, a, minSeconds).calls[c], Do(s, a, minSeconds), minSeconds)
  {
    hide Spaced;
    if !Serving(a) && c == a.c {
      if c in s.calls { assert PhaseTimed(s.calls[c], s, minSeconds); }
    } else {
      assert PhaseTimed(s.calls[c], s, minSeconds);
    }
  }

  lemma StepNumbered(s: State, a: Action, minSeconds: nat)
    requires Numbered(s) && Enabled(s, a)
    ensures Numbered(Do(s, a, minSeconds))
  {
  }

  lemma StepInv(s: State, a: Action, minSeconds: nat)
    requires Inv(s, minSeconds) && Enabled(s, a)
    ensures Inv(Do(s, a, minSeconds), minSeconds)
  {
    StepExclusive(s, a, minSeconds);
    StepTimed(s, a, minSeconds);
    StepNumbered(s, a, minSeconds);
    StepRemembers(s, a, minSeconds);
  }

  lemma {:induction false} RunInv(run: seq<Action>, minSeconds: nat)
    requires After(run, minSeconds).Some?
    ensures Inv(After(run, minSeconds).value, minSeconds)
    decreases |run|
  {
    if run != [] {
      RunInv(run[..|run| - 1], minSeconds);
      StepInv(After(run[..|run| - 1], minSeconds).value, run[|run| - 1], minSeconds);
    }
  }

  /** In every interleaving of requests at most one resync is under way, and recorded starts
      keep the minimum interval. */
  lemma OneResyncAtATime(run: seq<Action>, minSeconds: nat, c: nat, d: nat)
    requires After(run, minSeconds).Some?
    ensures var s := After(run, minSeconds).value;
            && (InResync(At(s, c)) && InResync(At(s, d)) ==> c == d)
            && (InResync(At(s, c)) ==> s.resyncing)
    ensures Spaced(After(run, minSeconds).value.starts, minSeconds)
  {
    RunInv(run, minSeconds);
  }

  /** A refused request whose call has returned is pending, or a resync began after it, or
      one is on the point of beginning. */
  lemma RefusedNotForgotten(run: seq<Action>, minSeconds: nat, i: nat)
    requires After(run, minSeconds).Some? && i < |After(run, minSeconds).value.refusals|
    requires After(run, minSeconds).value.refusals[i].returned
    ensures Remembered(After(run, minSeconds).value, After(run, minSeconds).value.refusals[i])
  {
    RunInv(run, minSeconds);
  }

  /** Requests are lost only while the server has no run context. */
  lemma {:induction false} OnlyDroppedWithoutContext(run: seq<Action>, minSeconds: nat)
    requires After(run, minSeconds).Some? && run != [] && run[0] == SetContext
    ensures After(run, minSeconds).value.context && After(run, minSeconds).value.dropped == 0
    decreases |run|
  {
    if |run| > 1 {
      OnlyDroppedWithoutContext(run[..|run| - 1], minSeconds);
    } else {
      assert run[..0] == [];
    }
  }

  /** The deferred retry works: with no resync under way and the interval over, a request that
      runs undisturbed begins a resync and settles everything pending. */
  lemma DeferredRetryStarts(s: State, c: nat, now: int, minSeconds: nat) returns (t: State)
    requires Inv(s, minSeconds) && !s.resyncing && s.context && At(s, c).Idle?
    requires now >= NANOS_PER_MILLI && !WithinInterval(s, now, minSeconds)
    ensures Inv(t, minSeconds) && At(t, c).Running? && t.begun == s.begun + 1 && !t.pending
    ensures t.starts == s.starts + [now / NANOS_PER_MILLI]
  {
    hide Inv;
    StepInv(s, Swap(c), minSeconds);
    t := Do(s, Swap(c), minSeconds);
    StepInv(t, ReadClock(c, now), minSeconds);
    t := Do(t, ReadClock(c, now), minSeconds);
    StepInv(t, CheckInterval(c), minSeconds);
    t := Do(t, CheckInterval(c), minSeconds);
    StepInv(t, Stamp(c), minSeconds);
    t := Do(t, Stamp(c), minSeconds);
    StepInv(t, ClearPending(c), minSeconds);
    t := Do(t, ClearPending(c), minSeconds);
    StepInv(t, Begin(c), minSeconds);
    t := Do(t, Begin(c), minSeconds);
  }

  /** Whether a request is turned away at its first look, in every run: exactly when another call
      holds the flag. That the first sync is under way plays no part. */
  lemma RefusedAtOnceIff(run: seq<Action>, minSeconds: nat, c: nat)
    requires After(run, minSeconds).Some? && Enabled(After(run, minSeconds).value, Swap(c))
    ensures var s := After(run, minSeconds).value;
      At(Do(s, Swap(c), minSeconds), c).Busy? <==> exists d :: d in s.calls && Owns(s.calls[d])
  {
    RunInv(run, minSeconds);
  }

  lemma AfterSnoc(run: seq<Action>, minSeconds: nat, s: State, a: Action)
    requires After(run, minSeconds) == Some(s) && Enabled(s, a)
    ensures After(run + [a], minSeconds) == Some(Do(s, a, minSeconds))
  {
    assert (run + [a])[..|run|] == run;
  }

  /** So a resync can run beside the first sync: a run in which a request that arrives while it is
      under way is approved and begins. */
  lemma FirstSyncIgnored(minSeconds: nat, now: int) returns (run: seq<Action>)
    requires now >= NANOS_PER_MILLI
    ensures run == [SetContext, StartFirst, Swap(0), ReadClock(0, now), CheckInterval(0), Stamp(0), ClearPending(0),
                    Begin(0)]
    ensures After(run, minSeconds).Some?
    ensures After(run, minSeconds).value.first.UnderWay? && At(After(run, minSeconds).value, 0).Running?
  {
    hide After;
    run := [SetContext, StartFirst, Swap(0), ReadClock(0, now), CheckInterval(0), Stamp(0), ClearPending(0), Begin(0)];
    assert After([], minSeconds) == Some(INITIAL) by { AfterNothing(minSeconds); }
    var s, done := INITIAL, [];
    AfterSnoc(done, minSeconds, s, SetContext); s, done := Do(s, SetContext, minSeconds), done + [SetContext];
    AfterSnoc(done, minSeconds, s, StartFirst); s, done := Do(s, StartFirst, minSeconds), done + [StartFirst];
    AfterSnoc(done, minSeconds, s, Swap(0)); s, done := Do(s, Swap(0), minSeconds), done + [Swap(0)];
    AfterSnoc(done, minSeconds, s, ReadClock(0, now));
    s, done := Do(s, ReadClock(0, now), minSeconds), done + [ReadClock(0, now)];
    AfterSnoc(done, minSeconds, s, CheckInterval(0));
    s, done := Do(s, CheckInterval(0), minSeconds), done + [CheckInterval(0)];
    AfterSnoc(done, minSeconds, s, Stamp(0)); s, done := Do(s, Stamp(0), minSeconds), done + [Stamp(0)];
    AfterSnoc(done, minSeconds, s, ClearPending(0));
    s, done := Do(s, ClearPending(0), minSeconds), done + [ClearPending(0)];
    AfterSnoc(done, minSeconds, s, Begin(0)); s, done := Do(s, Begin(0), minSeconds), done + [Begin(0)];
    assert done == run;
  }

  lemma AfterNothing(minSeconds: nat)
    ensures After([], minSeconds) == Some(INITIAL)
  {
  }
}
