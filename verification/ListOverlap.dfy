/** List pushes are not overwriting: replayed over a copy that already has them they count twice.
    Exactly which bootstraps with pushes converge all the same. */
module ListOverlap {
  import opened Bytes
  import opened Lists
  import opened Keyspace
  import opened Snapshot
  import opened Replication
  import opened Bootstrap

  /** The writes considered here: pushes, DEL and FLUSHDB. */
  predicate Listed(p: Payload) { p.op in {LPushOp, RPushOp, DelOp, FlushOp} }

  predicate PushesTo(p: Payload, k: bytes)
  {
    (p.op == LPushOp || p.op == RPushOp) && p.key == k && p.members != []
  }

  predicate Erases(p: Payload, k: bytes) { p.op == FlushOp || (p.op == DelOp && p.key == k) }

  /** The state after a run of the bootstrap protocol in which the source does such writes. */
  function AfterLists(d: Data, shardOf: bytes -> nat, run: seq<Action>): Option<State>
  {
    if run == [] then Some(Initial(d))
    else
      var n := |run| - 1;
      var s := AfterLists(d, shardOf, run[..n]);
      if s.None? || !Possible(s.value, run[n]) || (run[n].Write? && !Listed(run[n].p)) then None
      else Some(Do(s.value, shardOf, run[n]))
  }

  function Copies(run: seq<Action>): nat
  {
    if run == [] then 0 else Copies(run[..|run| - 1]) + if run[|run| - 1].Copy? then 1 else 0
  }

  /** Something was pushed to the key before its shard was copied. */
  predicate PushedEarly(shardOf: bytes -> nat, run: seq<Action>, k: bytes)
  {
    run != [] &&
    var n := |run| - 1;
    PushedEarly(shardOf, run[..n], k)
    || (run[n].Write? && PushesTo(run[n].p, k) && Copies(run[..n]) <= shardOf(k))
  }

  /** The key was deleted in the run, or everything was. */
  predicate Erased(run: seq<Action>, k: bytes)
  {
    run != [] && var n := |run| - 1; Erased(run[..n], k) || (run[n].Write? && Erases(run[n].p, k))
  }

  /** Every key pushed to before its shard was copied was also deleted in the run. */
  ghost predicate EarlyErased(shardOf: bytes -> nat, run: seq<Action>)
  {
    forall k :: PushedEarly(shardOf, run, k) ==> Erased(run, k)
  }

  // ----- one key ------------------------------------------------------------------------------

  function Get(d: Data, k: bytes): Option<Value> { if k in d then Some(d[k]) else None }

  /** A key that can be pushed to. */
  predicate Lax(v: Option<Value>) { v.None? || v.value.List? }

  function Len(v: Option<Value>): nat { if v.Some? && v.value.List? then |v.value.list| else 0 }

  function Elements(v: Option<Value>): items { if v.Some? && v.value.List? then v.value.list else [] }

  predicate Accepts(p: Payload, k: bytes, v: Option<Value>) { PushesTo(p, k) ==> Lax(v) }

  /** What a write makes of the value under a key. */
  function Step(p: Payload, k: bytes, v: Option<Value>): Option<Value>
  {
    if Erases(p, k) then None
    else if PushesTo(p, k) && Lax(v) then Some(List(Push(Elements(v), p.members, p.op == LPushOp)))
    else v
  }

  lemma AppliedStep(d: Data, p: Payload, k: bytes)
    requires Listed(p) && !Apply(d, p).reply.Fail?
    ensures Get(Apply(d, p).data, k) == Step(p, k, Get(d, k)) && Accepts(p, k, Get(d, k))
  {
  }

  lemma AcceptedApplies(d: Data, p: Payload)
    requires Listed(p) && Accepts(p, p.key, Get(d, p.key))
    ensures !Apply(d, p).reply.Fail?
  {
  }

  function Fold(ps: seq<Payload>, k: bytes, v: Option<Value>): Option<Value>
    decreases |ps|
  {
    if ps == [] then v else Fold(ps[1..], k, Step(ps[0], k, v))
  }

  /** None of the writes is refused on the way. */
  predicate Smooth(ps: seq<Payload>, k: bytes, v: Option<Value>)
    decreases |ps|
  {
    ps == [] || (Accepts(ps[0], k, v) && Smooth(ps[1..], k, Step(ps[0], k, v)))
  }

  lemma {:induction false} FoldSnoc(ps: seq<Payload>, p: Payload, k: bytes, v: Option<Value>)
    ensures Fold(ps + [p], k, v) == Step(p, k, Fold(ps, k, v))
    ensures Smooth(ps + [p], k, v) <==> Smooth(ps, k, v) && Accepts(p, k, Fold(ps, k, v))
    decreases |ps|
  {
    hide Step, Accepts;
    if ps == [] {
      assert ([p])[1..] == [] && ps + [p] == [p];
    } else {
      assert (ps + [p])[1..] == ps[1..] + [p];
      FoldSnoc(ps[1..], p, k, Step(ps[0], k, v));
    }
  }

  predicate HasPush(ps: seq<Payload>, k: bytes) { exists i :: 0 <= i < |ps| && PushesTo(ps[i], k) }

  predicate HasErase(ps: seq<Payload>, k: bytes) { exists i :: 0 <= i < |ps| && Erases(ps[i], k) }

  lemma HasSnoc(ps: seq<Payload>, p: Payload, k: bytes)
    ensures HasPush(ps + [p], k) <==> HasPush(ps, k) || PushesTo(p, k)
    ensures HasErase(ps + [p], k) <==> HasErase(ps, k) || Erases(p, k)
  {
    hide PushesTo, Erases;
    var all := ps + [p];
    assert all[|ps|] == p && forall i :: 0 <= i < |ps| ==> all[i] == ps[i];
    if i :| 0 <= i < |ps| && PushesTo(ps[i], k) { assert PushesTo(all[i], k); }
    if i :| 0 <= i < |ps| && Erases(ps[i], k) { assert Erases(all[i], k); }
  }

  lemma HasCons(ps: seq<Payload>, k: bytes)
    requires ps != []
    ensures HasPush(ps, k) <==> PushesTo(ps[0], k) || HasPush(ps[1..], k)
    ensures HasErase(ps, k) <==> Erases(ps[0], k) || HasErase(ps[1..], k)
  {
    hide PushesTo, Erases;
    var rest := ps[1..];
    assert forall i :: 0 <= i < |rest| ==> rest[i] == ps[i + 1];
    if i :| 0 <= i < |ps| && PushesTo(ps[i], k) { if i > 0 { assert PushesTo(rest[i - 1], k); } }
    if i :| 0 <= i < |ps| && Erases(ps[i], k) { if i > 0 { assert Erases(rest[i - 1], k); } }
  }

  /** A list, or nothing, takes everything and stays one. */
  lemma {:induction false} LaxSmooth(ps: seq<Payload>, k: bytes, v: Option<Value>)
    requires Lax(v)
    ensures Smooth(ps, k, v) && Lax(Fold(ps, k, v))
    decreases |ps|
  {
    if ps != [] { LaxSmooth(ps[1..], k, Step(ps[0], k, v)); }
  }

  /** What went through once goes through again on its own result. */
  lemma {:induction false} ReplaySmooth(ps: seq<Payload>, k: bytes, v: Option<Value>)
    requires Smooth(ps, k, v)
    ensures Smooth(ps, k, Fold(ps, k, v))
    decreases |ps|
  {
    if Lax(v) {
      LaxSmooth(ps, k, v);
      LaxSmooth(ps, k, Fold(ps, k, v));
    } else if ps != [] {
      if Erases(ps[0], k) {
        LaxSmooth(ps[1..], k, None);
        LaxSmooth(ps, k, Fold(ps, k, v));
      } else {
        ReplaySmooth(ps[1..], k, v);
      }
    }
  }

  /** After an erasure it does not matter what was there before. */
  lemma {:induction false} ErasedSame(ps: seq<Payload>, k: bytes, v: Option<Value>, w: Option<Value>)
    requires HasErase(ps, k) && Smooth(ps, k, v) && Smooth(ps, k, w)
    ensures Fold(ps, k, v) == Fold(ps, k, w)
    decreases |ps|
  {
    HasCons(ps, k);
    if !Erases(ps[0], k) {
      ErasedSame(ps[1..], k, Step(ps[0], k, v), Step(ps[0], k, w));
    }
  }

  /** Writes that do not concern a key. */
  lemma {:induction false} FoldIdle(ps: seq<Payload>, k: bytes, v: Option<Value>)
    requires !HasErase(ps, k) && !HasPush(ps, k)
    ensures Fold(ps, k, v) == v
    decreases |ps|
  {
    if ps != [] {
      HasCons(ps, k);
      FoldIdle(ps[1..], k, v);
    }
  }

  /** Pushes without an erasure make a list longer. */
  lemma {:induction false} FoldGrows(ps: seq<Payload>, k: bytes, v: Option<Value>)
    requires !HasErase(ps, k) && Smooth(ps, k, v) && (HasPush(ps, k) || (v.Some? && Lax(v)))
    ensures var f := Fold(ps, k, v);
      Lax(v) && f.Some? && Lax(f) && Len(f) >= Len(v) && (HasPush(ps, k) ==> Len(f) > Len(v))
    decreases |ps|
  {
    if ps != [] {
      HasCons(ps, k);
      if PushesTo(ps[0], k) { PushGrows(ps[0], k, v); }
      FoldGrows(ps[1..], k, Step(ps[0], k, v));
    }
  }

  lemma PushGrows(p: Payload, k: bytes, v: Option<Value>)
    requires Lax(v) && PushesTo(p, k)
    ensures Step(p, k, v).Some? && Lax(Step(p, k, v)) && Len(Step(p, k, v)) == Len(v) + |p.members|
  {
  }

  // ----- the protocol, key by key ---------------------------------------------------------------

  /** Before its shard is copied the log tells how the key came to be what it is at the source.
      Afterwards the joiner is on the way to the same value, unless pushes count twice. */
  ghost predicate KeyInv(s: State, d: Data, shardOf: bytes -> nat, k: bytes, early: bool, erased: bool)
  {
    if shardOf(k) >= s.next then
      && k !in s.joiner
      && Smooth(s.buffer, k, Get(d, k)) && Get(s.source, k) == Fold(s.buffer, k, Get(d, k))
      && (early <==> HasPush(s.buffer, k)) && (erased <==> HasErase(s.buffer, k))
    else
      var f := Fold(s.buffer, k, Get(s.joiner, k));
      && Smooth(s.buffer, k, Get(s.joiner, k))
      && (if erased || !early then f == Get(s.source, k) else Doubled(f, Get(s.source, k)))
  }

  predicate Doubled(f: Option<Value>, v: Option<Value>)
  {
    f.Some? && v.Some? && Lax(f) && Lax(v) && Len(f) > Len(v)
  }

  lemma WriteKey(s: State, d: Data, shardOf: bytes -> nat, k: bytes, early: bool, erased: bool, p: Payload)
    requires KeyInv(s, d, shardOf, k, early, erased) && Possible(s, Write(p)) && Listed(p)
    ensures KeyInv(Do(s, shardOf, Write(p)), d, shardOf, k, early || (PushesTo(p, k) && s.next <= shardOf(k)),
                   erased || Erases(p, k))
  {
    AppliedStep(s.source, p, k);
    FoldSnoc(s.buffer, p, k, Get(d, k));
    FoldSnoc(s.buffer, p, k, Get(s.joiner, k));
    HasSnoc(s.buffer, p, k);
    hide Smooth, Fold, HasPush, HasErase, Apply, Push;
    if s.next > shardOf(k) && !erased && early && PushesTo(p, k) {
      PushGrows(p, k, Fold(s.buffer, k, Get(s.joiner, k)));
      PushGrows(p, k, Get(s.source, k));
    }
  }

  lemma CopyKey(s: State, d: Data, shardOf: bytes -> nat, k: bytes, early: bool, erased: bool)
    requires KeyInv(s, d, shardOf, k, early, erased) && Possible(s, Copy)
    ensures KeyInv(Do(s, shardOf, Copy), d, shardOf, k, early, erased)
  {
    hide Smooth, Fold, HasPush, HasErase, Step;
    var t := Do(s, shardOf, Copy);
    if shardOf(k) == s.next {
      var init, v := Get(d, k), Get(s.source, k);
      assert Get(t.joiner, k) == v;
      ReplaySmooth(s.buffer, k, init);
      if erased {
        ErasedSame(s.buffer, k, init, v);
      } else if early {
        FoldGrows(s.buffer, k, init);
        FoldGrows(s.buffer, k, v);
      } else {
        FoldIdle(s.buffer, k, v);
      }
    } else {
      assert Get(t.joiner, k) == Get(s.joiner, k);
    }
  }

  lemma DrainKey(s: State, d: Data, shardOf: bytes -> nat, k: bytes, early: bool, erased: bool)
    requires KeyInv(s, d, shardOf, k, early, erased) && Possible(s, Drain) && shardOf(k) < NUM_SHARDS
    requires Listed(s.buffer[0]) && !Apply(s.joiner, s.buffer[0]).reply.Fail?
    ensures KeyInv(Do(s, shardOf, Drain), d, shardOf, k, early, erased)
  {
    AppliedStep(s.joiner, s.buffer[0], k);
    hide Apply, Step;
  }

  ghost predicate ListInv(s: State, d: Data, shardOf: bytes -> nat, run: seq<Action>)
  {
    && s.next == Copies(run) && !s.failed && (forall p :: p in s.buffer ==> Listed(p))
    && forall k {:trigger PushedEarly(shardOf, run, k)} ::
         KeyInv(s, d, shardOf, k, PushedEarly(shardOf, run, k), Erased(run, k))
  }

  lemma DrainAccepted(s: State, d: Data, shardOf: bytes -> nat, run: seq<Action>)
    requires ListInv(s, d, shardOf, run) && Possible(s, Drain) && Routed(shardOf)
    ensures Listed(s.buffer[0]) && !Apply(s.joiner, s.buffer[0]).reply.Fail?
  {
    var p := s.buffer[0];
    assert p in s.buffer;
    assert KeyInv(s, d, shardOf, p.key, PushedEarly(shardOf, run, p.key), Erased(run, p.key));
    AcceptedApplies(s.joiner, p);
  }

  lemma {:induction false} ListRunInv(d: Data, shardOf: bytes -> nat, run: seq<Action>)
    requires Routed(shardOf) && AfterLists(d, shardOf, run).Some?
    ensures ListInv(AfterLists(d, shardOf, run).value, d, shardOf, run)
    decreases |run|
  {
    hide KeyInv, Listed, PushesTo, Erases;
    if run == [] {
      forall k ensures KeyInv(Initial(d), d, shardOf, k, false, false) { StartKey(d, shardOf, k); }
    } else {
      var n := |run| - 1;
      var was := run[..n];
      ListRunInv(d, shardOf, was);
      var s := AfterLists(d, shardOf, was).value;
      if run[n].Drain? { DrainAccepted(s, d, shardOf, was); }
      forall k ensures KeyInv(Do(s, shardOf, run[n]), d, shardOf, k, PushedEarly(shardOf, run, k), Erased(run, k)) {
        assert KeyInv(s, d, shardOf, k, PushedEarly(shardOf, was, k), Erased(was, k));
        match run[n]
        case Write(p) => WriteKey(s, d, shardOf, k, PushedEarly(shardOf, was, k), Erased(was, k), p);
        case Copy => CopyKey(s, d, shardOf, k, PushedEarly(shardOf, was, k), Erased(was, k));
        case Drain => DrainKey(s, d, shardOf, k, PushedEarly(shardOf, was, k), Erased(was, k));
      }
    }
  }

  lemma StartKey(d: Data, shardOf: bytes -> nat, k: bytes)
    ensures KeyInv(Initial(d), d, shardOf, k, false, false)
  {
  }

  /** Over every run of pushes, deletions, shard copies and replays, from any data: nothing is
      refused, and once every shard is copied and the buffer is empty the joiner equals the source
      if and only if each key pushed to before its shard was copied was also deleted in the run. */
  lemma PushesConvergeIff(d: Data, shardOf: bytes -> nat, run: seq<Action>)
    requires Routed(shardOf) && AfterLists(d, shardOf, run).Some?
    ensures var s := AfterLists(d, shardOf, run).value;
      && !s.failed
      && (s.next == NUM_SHARDS && s.buffer == [] ==>
           (s.joiner == s.source <==> EarlyErased(shardOf, run)))
  {
    hide PushedEarly, Erased;
    ListRunInv(d, shardOf, run);
    var s := AfterLists(d, shardOf, run).value;
    if s.next == NUM_SHARDS && s.buffer == [] {
      if s.joiner == s.source {
        forall k | PushedEarly(shardOf, run, k) ensures Erased(run, k) { KeyEnds(s, d, shardOf, run, k); }
      }
      if EarlyErased(shardOf, run) {
        forall k ensures Get(s.joiner, k) == Get(s.source, k) { KeyEnds(s, d, shardOf, run, k); }
        SameKeys(s.joiner, s.source);
      }
    }
  }

  lemma KeyEnds(s: State, d: Data, shardOf: bytes -> nat, run: seq<Action>, k: bytes)
    requires ListInv(s, d, shardOf, run) && Routed(shardOf) && s.next == NUM_SHARDS && s.buffer == []
    ensures Get(s.joiner, k) == Get(s.source, k) <==> (PushedEarly(shardOf, run, k) ==> Erased(run, k))
  {
    assert KeyInv(s, d, shardOf, k, PushedEarly(shardOf, run, k), Erased(run, k));
  }

  lemma SameKeys(d: Data, e: Data)
    ensures d == e <==> forall k :: Get(d, k) == Get(e, k)
  {
    if forall k :: Get(d, k) == Get(e, k) {
      forall k ensures (k in d <==> k in e) && (k in d ==> d[k] == e[k]) { assert Get(d, k) == Get(e, k); }
    }
  }
}
