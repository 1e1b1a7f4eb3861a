/** Inbound replication: connection readers hand frames to per-origin workers, which apply them
    or, during a bootstrap, buffer them for the drain that follows. */
module Inbound {
  import opened Bytes

  const SHARD_DEPTH: nat := 1024

  /** Frames are routed by origin; a peer that does not name itself, by its connection. */
  function RouteKey(origin: bytes, remote: bytes): bytes
  {
    var key := TrimSpace(origin);
    if key == [] then remote else key
  }

  /** A frame with its routing key and its position in the order of arrival. */
  datatype Frame = Frame(key: bytes, at: nat)

  /** What one worker is doing with the frame it took: it has read the bootstrap flag
      (`ToBuffer`, `ToStore`) or not yet (`Taken`). */
  datatype Hand = Empty | Taken(f: Frame) | ToBuffer(f: Frame) | ToStore(f: Frame)

  /** `drain` is the frame the bootstrap drain has popped and not yet applied. */
  datatype State = State(
    queues: seq<seq<Frame>>,
    hands: seq<Hand>,
    active: bool,
    capacity: nat,
    buffer: seq<Frame>,
    drain: Option<Frame>,
    applied: seq<Frame>,
    arrived: seq<Frame>)

  function Initial(workers: nat): State
  {
    State(seq(workers, _ => []), seq(workers, _ => Empty), false, 1, [], None, [], [])
  }

  /** The worker of a routing key, for any routing function: the hash of the key modulo the
      number of workers is one. */
  function Worker(n: nat, route: bytes -> nat, k: bytes): (w: nat)
    requires n > 0
    ensures w < n
  {
    if route(k) < n then route(k) else 0
  }

  datatype Action =
    | Enqueue(origin: bytes, remote: bytes)
    | Take(w: nat)
    | Check(w: nat)
    | Deliver(w: nat)
    | Activate(capacity: nat)
    | Pop
    | DrainApply
    | Deactivate

  predicate Shaped(s: State) { s.queues != [] && |s.hands| == |s.queues| }

  predicate Enabled(s: State, route: bytes -> nat, a: Action)
    requires Shaped(s)
  {
    match a
    case Enqueue(o, c) => |s.queues[Worker(|s.queues|, route, RouteKey(o, c))]| < SHARD_DEPTH
    case Take(w) => w < |s.hands| && s.hands[w].Empty? && s.queues[w] != []
    case Check(w) => w < |s.hands| && s.hands[w].Taken?
    case Deliver(w) => w < |s.hands| && (s.hands[w].ToBuffer? || s.hands[w].ToStore?)
    case Activate(_) => true
    case Pop => s.active && s.drain.None? && s.buffer != []
    case DrainApply => s.drain.Some?
    case Deactivate => s.active && s.drain.None? // the drain and this are one goroutine
  }

  function Accept(s: State, route: bytes -> nat, f: Frame): State
    requires Shaped(s)
  {
    var w := Worker(|s.queues|, route, f.key);
    s.(queues := s.queues[w := s.queues[w] + [f]], arrived := s.arrived + [f])
  }

  function Do(s: State, route: bytes -> nat, a: Action): State
    requires Shaped(s) && Enabled(s, route, a)
  {
    match a
    case Enqueue(o, c) => Accept(s, route, Frame(RouteKey(o, c), |s.arrived|))
    case Take(w) =>
      s.(queues := s.queues[w := s.queues[w][1..]], hands := s.hands[w := Taken(s.queues[w][0])])
    case Check(w) =>
      var f := s.hands[w].f;
      s.(hands := s.hands[w := if s.active then ToBuffer(f) else ToStore(f)])
    case Deliver(w) =>
      var f := s.hands[w].f;
      var s1 := s.(hands := s.hands[w := Empty]);
      if s.hands[w].ToStore? then s1.(applied := s.applied + [f])
      else if |s.buffer| >= s.capacity then s1 // queue full: the frame is discarded
      else s1.(buffer := s.buffer + [f])
    case Activate(cap) => s.(active := true, capacity := if cap < 1 then 1 else cap)
    case Pop => s.(buffer := s.buffer[1..], drain := Some(s.buffer[0]))
    case DrainApply => s.(drain := None, applied := s.applied + [s.drain.value])
    case Deactivate => s.(active := false, buffer := [])
  }

  /** The steps that lose nothing: the buffer has room, and buffering ends only when nothing is
      buffered and no worker has already chosen the buffer. */
  predicate Lossless(s: State, a: Action)
    requires Shaped(s)
  {
    match a
    case Deliver(w) => w < |s.hands| && (s.hands[w].ToBuffer? ==> |s.buffer| < s.capacity)
    case Deactivate => s.buffer == [] && forall w :: 0 <= w < |s.hands| ==> !s.hands[w].ToBuffer?
    case _ => true
  }

  // ----- the order of one origin's frames -------------------------------------------------

  function OptSeq(o: Option<Frame>): seq<Frame> { if o.None? then [] else [o.value] }

  function HandSeq(h: Hand): seq<Frame> { if h.Empty? then [] else [h.f] }

  /** What worker `w` has taken or will take. */
  function Lane(s: State, w: nat): seq<Frame>
    requires Shaped(s) && w < |s.hands|
  {
    HandSeq(s.hands[w]) + s.queues[w]
  }

  /** What has been popped from the buffer or is still in it. */
  function Buffered(s: State): seq<Frame> { OptSeq(s.drain) + s.buffer }

  /** Frames of one origin stand in order of arrival. */
  predicate Sorted(fs: seq<Frame>)
  {
    forall i, j :: 0 <= i < j < |fs| && fs[i].key == fs[j].key ==> fs[i].at < fs[j].at
  }

  /** Frames of one origin in `xs` arrived before those in `ys`. */
  ghost predicate Before(xs: seq<Frame>, ys: seq<Frame>)
  {
    forall x, y :: x in xs && y in ys && x.key == y.key ==> x.at < y.at
  }

  /** Frames handed to the store or to the buffer, then those of the worker: in order. */
  ghost predicate LaneOrdered(s: State, w: nat)
    requires Shaped(s) && w < |s.hands|
  {
    Sorted(Lane(s, w)) && Before(s.applied, Lane(s, w)) && Before(Buffered(s), Lane(s, w))
  }

  ghost predicate RoutedTo(n: nat, route: bytes -> nat, fs: seq<Frame>, w: nat)
    requires n > 0
  {
    forall f :: f in fs ==> Worker(n, route, f.key) == w
  }

  ghost predicate Avoids(n: nat, route: bytes -> nat, fs: seq<Frame>, w: nat)
    requires n > 0
  {
    forall f :: f in fs ==> Worker(n, route, f.key) != w
  }

  /** One worker's frames are its own; it chose the buffer only while buffering was on; and
      when about to write to the store it has nothing still buffered. */
  ghost predicate LaneTidy(s: State, route: bytes -> nat, w: nat)
    requires Shaped(s) && w < |s.hands|
  {
    && RoutedTo(|s.queues|, route, Lane(s, w), w)
    && (s.hands[w].ToBuffer? ==> s.active)
    && (s.hands[w].ToStore? ==> Avoids(|s.queues|, route, Buffered(s), w))
  }

  /** Where a frame is. */
  ghost predicate Located(s: State, route: bytes -> nat, f: Frame)
    requires Shaped(s)
  {
    f in s.applied || f in Buffered(s) || f in Lane(s, Worker(|s.queues|, route, f.key))
  }

  /** Every frame that arrived is somewhere, and wherever frames of one origin stand they are in
      order of arrival. */
  ghost predicate InOrder(s: State, route: bytes -> nat)
  {
    && Shaped(s)
    && Sorted(s.applied) && Sorted(Buffered(s)) && Before(s.applied, Buffered(s))
    && (forall w :: 0 <= w < |s.hands| ==> LaneOrdered(s, w))
    && (forall i :: 0 <= i < |s.arrived| ==> s.arrived[i].at == i && Located(s, route, s.arrived[i]))
  }

  /** Order and account, with what the steps need to keep them. */
  ghost predicate Inv(s: State, route: bytes -> nat)
  {
    && InOrder(s, route)
    && s.capacity >= 1
    && (!s.active ==> Buffered(s) == [])
    && (forall w :: 0 <= w < |s.hands| ==> LaneTidy(s, route, w))
    && (forall f :: Located(s, route, f) ==> f in s.arrived)
  }

  /** Frame `m` is nowhere, or a later frame of its origin is in the store and it is not. */
  ghost predicate Damaged(s: State, route: bytes -> nat, m: nat)
    requires Shaped(s) && m < |s.arrived|
  {
    !Located(s, route, s.arrived[m]) || (s.arrived[m] !in s.applied && Overtaken(s, s.arrived[m]))
  }

  ghost predicate Overtaken(s: State, f: Frame)
  {
    exists g :: g in s.applied && g.key == f.key && f.at < g.at
  }

  // ----- one step -----------------------------------------------------------------------

  lemma SortedCons(x: Frame, ys: seq<Frame>)
    ensures Sorted([x] + ys) <==> Sorted(ys) && Before([x], ys)
  {
    var all := [x] + ys;
    if Sorted(all) {
      forall i, j | 0 <= i < j < |ys| && ys[i].key == ys[j].key ensures ys[i].at < ys[j].at {
        assert all[i + 1] == ys[i] && all[j + 1] == ys[j];
      }
      forall y | y in ys && x.key == y.key ensures x.at < y.at {
        var j :| 0 <= j < |ys| && ys[j] == y;
        assert all[0] == x && all[j + 1] == y;
      }
    }
    if Sorted(ys) && Before([x], ys) {
      forall i, j | 0 <= i < j < |all| && all[i].key == all[j].key ensures all[i].at < all[j].at {
        assert all[j] == ys[j - 1] && all[j] in ys;
      }
    }
  }

  lemma SortedSnoc(xs: seq<Frame>, y: Frame)
    requires Sorted(xs) && Before(xs, [y])
    ensures Sorted(xs + [y])
  {
    forall i, j | 0 <= i < j < |xs| + 1 && (xs + [y])[i].key == (xs + [y])[j].key
      ensures (xs + [y])[i].at < (xs + [y])[j].at
    {
      assert (xs + [y])[i] in xs;
    }
  }

  /** Everything already here arrived before what arrives now. */
  lemma Older(s: State, route: bytes -> nat, x: Frame)
    requires Inv(s, route) && Located(s, route, x)
    ensures x.at < |s.arrived|
  {
    assert x in s.arrived;
  }

  lemma AcceptLane(s: State, route: bytes -> nat, f: Frame, w: nat)
    requires Inv(s, route) && f.at == |s.arrived| && w < |s.hands|
    ensures LaneOrdered(Accept(s, route, f), w) && LaneTidy(Accept(s, route, f), route, w)
  {
    var t, v := Accept(s, route, f), Worker(|s.queues|, route, f.key);
    assert LaneOrdered(s, w) && LaneTidy(s, route, w);
    if w != v {
      assert Lane(t, w) == Lane(s, w);
    } else {
      assert Lane(t, w) == Lane(s, w) + [f];
      forall x | x in s.applied || x in Buffered(s) || x in Lane(s, w) ensures x.at < f.at {
        Older(s, route, x);
      }
      SortedSnoc(Lane(s, w), f);
    }
  }

  lemma AcceptInv(s: State, route: bytes -> nat, k: bytes)
    requires Inv(s, route)
    ensures Inv(Accept(s, route, Frame(k, |s.arrived|)), route)
  {
    hide LaneOrdered, LaneTidy, Located;
    var f := Frame(k, |s.arrived|);
    var t := Accept(s, route, f);
    forall w | 0 <= w < |t.hands| ensures LaneOrdered(t, w) && LaneTidy(t, route, w) {
      AcceptLane(s, route, f, w);
    }
    AcceptLocated(s, route, f);
  }

  lemma AcceptLocated(s: State, route: bytes -> nat, f: Frame)
    requires Shaped(s)
    ensures var t := Accept(s, route, f);
            forall x :: Located(t, route, x) <==> Located(s, route, x) || x == f
  {
    var t := Accept(s, route, f);
    forall x ensures Located(t, route, x) <==> Located(s, route, x) || x == f {
      var w := Worker(|s.queues|, route, x.key);
      if w == Worker(|s.queues|, route, f.key) {
        assert Lane(t, w) == Lane(s, w) + [f];
      } else {
        assert Lane(t, w) == Lane(s, w);
      }
    }
  }

  /** Steps after which every frame is where it was, up to the stage of a worker's hand. */
  lemma SameLanesInv(s: State, t: State, route: bytes -> nat)
    requires Inv(s, route) && Shaped(t) && |t.queues| == |s.queues|
    requires t.applied == s.applied && Buffered(t) == Buffered(s) && t.arrived == s.arrived
    requires t.capacity >= 1 && (!t.active ==> Buffered(t) == [])
    requires forall w :: 0 <= w < |t.hands| ==> Lane(t, w) == Lane(s, w)
    requires forall w :: 0 <= w < |t.hands| && t.hands[w].ToBuffer? ==> t.active
    requires forall w :: 0 <= w < |t.hands| && t.hands[w].ToStore? ==> s.hands[w].ToStore? || Buffered(t) == []
    ensures Inv(t, route)
  {
    forall w | 0 <= w < |t.hands| ensures LaneOrdered(t, w) && LaneTidy(t, route, w) {
      assert LaneOrdered(s, w) && LaneTidy(s, route, w);
    }
    forall x ensures Located(t, route, x) <==> Located(s, route, x) { }
  }

  lemma TakeInv(s: State, route: bytes -> nat, v: nat)
    requires Inv(s, route) && Enabled(s, route, Take(v))
    ensures Inv(Do(s, route, Take(v)), route)
  {
    var t := Do(s, route, Take(v));
    forall w | 0 <= w < |t.hands|
      ensures Lane(t, w) == Lane(s, w) && (t.hands[w].ToBuffer? ==> t.active)
    {
      assert LaneTidy(s, route, w);
    }
    SameLanesInv(s, t, route);
  }

  lemma CheckInv(s: State, route: bytes -> nat, v: nat)
    requires Inv(s, route) && Enabled(s, route, Check(v))
    ensures Inv(Do(s, route, Check(v)), route)
  {
    var t := Do(s, route, Check(v));
    forall w | 0 <= w < |t.hands|
      ensures Lane(t, w) == Lane(s, w) && (t.hands[w].ToBuffer? ==> t.active)
    {
      assert LaneTidy(s, route, w);
    }
    SameLanesInv(s, t, route);
  }

  /** Delivering takes the first frame off the worker's lane and touches no other. */
  lemma DeliverLanes(s: State, route: bytes -> nat, v: nat)
    requires Shaped(s) && Enabled(s, route, Deliver(v))
    ensures var t, f := Do(s, route, Deliver(v)), s.hands[v].f;
            && f in Lane(s, v) && Lane(s, v) == [f] + Lane(t, v)
            && forall w :: 0 <= w < |s.hands| && w != v ==> Lane(t, w) == Lane(s, w)
  {
    assert [s.hands[v].f] + s.queues[v] == [s.hands[v].f] + ([] + s.queues[v]);
  }

  lemma BufferInv(s: State, route: bytes -> nat, v: nat)
    requires Inv(s, route) && Enabled(s, route, Deliver(v)) && Lossless(s, Deliver(v)) && s.hands[v].ToBuffer?
    ensures Inv(Do(s, route, Deliver(v)), route)
  {
    var t, f := Do(s, route, Deliver(v)), s.hands[v].f;
    assert LaneOrdered(s, v) && LaneTidy(s, route, v);
    assert Buffered(t) == Buffered(s) + [f];
    DeliverLanes(s, route, v);
    SortedCons(f, Lane(t, v));
    SortedSnoc(Buffered(s), f);
    forall w | 0 <= w < |t.hands| ensures LaneOrdered(t, w) && LaneTidy(t, route, w) {
      assert LaneOrdered(s, w) && LaneTidy(s, route, w);
    }
    MovedFrame(s, t, route, v, f);
  }

  lemma StoreLane(s: State, route: bytes -> nat, v: nat, w: nat)
    requires Inv(s, route) && Enabled(s, route, Deliver(v)) && s.hands[v].ToStore? && w < |s.hands|
    ensures var t := Do(s, route, Deliver(v)); LaneOrdered(t, w) && LaneTidy(t, route, w)
  {
    var t, f := Do(s, route, Deliver(v)), s.hands[v].f;
    DeliverLanes(s, route, v);
    assert LaneTidy(s, route, v);
    assert LaneOrdered(s, w) && LaneTidy(s, route, w);
    if w == v { SortedCons(f, Lane(t, v)); }
  }

  lemma StoreInv(s: State, route: bytes -> nat, v: nat)
    requires Inv(s, route) && Enabled(s, route, Deliver(v)) && s.hands[v].ToStore?
    ensures Inv(Do(s, route, Deliver(v)), route)
  {
    var t, f := Do(s, route, Deliver(v)), s.hands[v].f;
    DeliverLanes(s, route, v);
    assert Sorted(t.applied) && Before(t.applied, Buffered(t)) by {
      assert LaneOrdered(s, v) && LaneTidy(s, route, v);
      SortedSnoc(s.applied, f);
    }
    assert forall w :: 0 <= w < |t.hands| ==> LaneOrdered(t, w) && LaneTidy(t, route, w) by {
      forall w | 0 <= w < |t.hands| ensures LaneOrdered(t, w) && LaneTidy(t, route, w) {
        StoreLane(s, route, v, w);
      }
    }
    assert forall x :: Located(t, route, x) <==> Located(s, route, x) by {
      assert LaneTidy(s, route, v);
      MovedFrame(s, t, route, v, f);
    }
  }

  /** A frame that left a worker's hand for the store or the buffer is still accounted for. */
  lemma MovedFrame(s: State, t: State, route: bytes -> nat, v: nat, f: Frame)
    requires Shaped(s) && Shaped(t) && |t.queues| == |s.queues| && v < |s.hands|
    requires Worker(|s.queues|, route, f.key) == v && Lane(s, v) == [f] + Lane(t, v)
    requires forall w :: 0 <= w < |s.hands| && w != v ==> Lane(t, w) == Lane(s, w)
    requires || (t.applied == s.applied + [f] && Buffered(t) == Buffered(s))
             || (t.applied == s.applied && Buffered(t) == Buffered(s) + [f])
    ensures forall x :: Located(t, route, x) <==> Located(s, route, x)
  {
    forall x ensures Located(t, route, x) <==> Located(s, route, x) {
      if Worker(|s.queues|, route, x.key) != v { assert x != f; }
    }
  }

  lemma PopInv(s: State, route: bytes -> nat)
    requires Inv(s, route) && Enabled(s, route, Pop)
    ensures Inv(Do(s, route, Pop), route)
  {
    var t := Do(s, route, Pop);
    assert Buffered(t) == Buffered(s);
    forall w | 0 <= w < |t.hands|
      ensures Lane(t, w) == Lane(s, w) && (t.hands[w].ToBuffer? ==> t.active)
    {
      assert LaneTidy(s, route, w);
    }
    SameLanesInv(s, t, route);
  }

  lemma DrainInv(s: State, route: bytes -> nat)
    requires Inv(s, route) && Enabled(s, route, DrainApply)
    ensures Inv(Do(s, route, DrainApply), route)
  {
    var t, f := Do(s, route, DrainApply), s.drain.value;
    assert Buffered(s) == [f] + Buffered(t);
    assert f in Buffered(s);
    SortedCons(f, Buffered(t));
    SortedSnoc(s.applied, f);
    forall w | 0 <= w < |t.hands| ensures LaneOrdered(t, w) && LaneTidy(t, route, w) {
      assert LaneOrdered(s, w) && LaneTidy(s, route, w);
      assert Lane(t, w) == Lane(s, w);
    }
    forall x ensures Located(t, route, x) <==> Located(s, route, x) { }
  }

  lemma SwitchInv(s: State, route: bytes -> nat, a: Action)
    requires Inv(s, route) && Enabled(s, route, a) && Lossless(s, a) && (a.Activate? || a.Deactivate?)
    ensures Inv(Do(s, route, a), route)
  {
    var t := Do(s, route, a);
    forall w | 0 <= w < |t.hands|
      ensures Lane(t, w) == Lane(s, w) && (t.hands[w].ToBuffer? ==> t.active)
    {
      assert LaneTidy(s, route, w);
    }
    SameLanesInv(s, t, route);
  }

  lemma LosslessInv(s: State, route: bytes -> nat, a: Action)
    requires Inv(s, route) && Enabled(s, route, a) && Lossless(s, a)
    ensures Inv(Do(s, route, a), route)
  {
    match a {
      case Enqueue(o, c) => AcceptInv(s, route, RouteKey(o, c));
      case Take(v) => TakeInv(s, route, v);
      case Check(v) => CheckInv(s, route, v);
      case Deliver(v) => if s.hands[v].ToBuffer? { BufferInv(s, route, v); } else { StoreInv(s, route, v); }
      case Pop => PopInv(s, route);
      case DrainApply => DrainInv(s, route);
      case Activate(_) => SwitchInv(s, route, a);
      case Deactivate => SwitchInv(s, route, a);
    }
  }

  // ----- a step that is not lossless ------------------------------------------------------

  /** The state after a run of possible steps. */
  ghost function Follow(s: State, route: bytes -> nat, run: seq<Action>): (r: Option<State>)
    requires Shaped(s)
    ensures r.Some? ==> Shaped(r.value)
    decreases |run|
  {
    if run == [] then Some(s)
    else if Enabled(s, route, run[0]) then Follow(Do(s, route, run[0]), route, run[1..])
    else None
  }

  ghost predicate AllLossless(s: State, route: bytes -> nat, run: seq<Action>)
    requires Shaped(s)
    decreases |run|
  {
    run != [] && Enabled(s, route, run[0])
    ==> Lossless(s, run[0]) && AllLossless(Do(s, route, run[0]), route, run[1..])
  }

  lemma {:induction false} FollowInv(s: State, route: bytes -> nat, run: seq<Action>)
    requires Inv(s, route) && AllLossless(s, route, run) && Follow(s, route, run).Some?
    ensures Inv(Follow(s, route, run).value, route)
    decreases |run|
  {
    hide Inv, Lossless;
    assert Shaped(s) by { InvShaped(s, route); }
    if run != [] {
      LosslessInv(s, route, run[0]);
      FollowInv(Do(s, route, run[0]), route, run[1..]);
    }
  }

  lemma InvShaped(s: State, route: bytes -> nat)
    requires Inv(s, route)
    ensures Shaped(s)
  { }

  /** `more` leads from `s` to `t`, losing nothing on the way. */
  ghost predicate Leads(s: State, route: bytes -> nat, more: seq<Action>, t: State)
  {
    Shaped(s) && Follow(s, route, more) == Some(t) && AllLossless(s, route, more)
  }

  lemma LeadsFirst(s: State, route: bytes -> nat, a: Action, more: seq<Action>, t: State)
    requires Shaped(s) && Enabled(s, route, a) && Lossless(s, a) && Leads(Do(s, route, a), route, more, t)
    ensures Leads(s, route, [a] + more, t)
  {
    assert ([a] + more)[1..] == more;
  }

  lemma InvUndamaged(s: State, route: bytes -> nat, m: nat)
    requires Inv(s, route) && m < |s.arrived|
    ensures !Damaged(s, route, m)
  {
    var f := s.arrived[m];
    var w := Worker(|s.queues|, route, f.key);
    assert Located(s, route, f);
    if f in Lane(s, w) { assert LaneOrdered(s, w); }
  }

  /** With buffering off, worker `w` with empty hands puts the first frame of its queue into the
      store. */
  lemma StoreOne(s: State, route: bytes -> nat, w: nat) returns (t: State)
    requires Shaped(s) && !s.active && w < |s.hands| && s.hands[w].Empty? && s.queues[w] != []
    ensures t == s.(queues := s.queues[w := s.queues[w][1..]], applied := s.applied + [s.queues[w][0]])
    ensures forall more, u :: Leads(t, route, more, u) ==> Leads(s, route, [Take(w), Check(w), Deliver(w)] + more, u)
  {
    var s1 := Do(s, route, Take(w));
    var s2 := Do(s1, route, Check(w));
    t := Do(s2, route, Deliver(w));
    assert t.hands == s.hands;
    forall more, u | Leads(t, route, more, u) ensures Leads(s, route, [Take(w), Check(w), Deliver(w)] + more, u) {
      LeadsFirst(s2, route, Deliver(w), more, u);
      LeadsFirst(s1, route, Check(w), [Deliver(w)] + more, u);
      LeadsFirst(s, route, Take(w), [Check(w)] + ([Deliver(w)] + more), u);
      assert [Take(w)] + ([Check(w)] + ([Deliver(w)] + more)) == [Take(w), Check(w), Deliver(w)] + more;
    }
  }

  /** With buffering off, any frame of `w`'s origins that arrives now is in the store once the
      worker has emptied its queue, and the buffer has not moved. */
  lemma {:induction false} Overtake(s: State, route: bytes -> nat, w: nat, k: bytes)
    returns (more: seq<Action>, t: State)
    requires Shaped(s) && !s.active && w < |s.hands| && s.hands[w].Empty?
    requires Worker(|s.queues|, route, k) == w
    ensures Leads(s, route, more, t)
    ensures s.arrived <= t.arrived && t.buffer == s.buffer && |t.queues| == |s.queues|
    ensures t.applied == s.applied + s.queues[w] + [Frame(k, |s.arrived|)]
    decreases |s.queues[w]|
  {
    if s.queues[w] == [] {
      var e := Enqueue([], k);
      var s1 := Do(s, route, e);
      t := StoreOne(s1, route, w);
      assert Leads(t, route, [], t);
      LeadsFirst(s, route, e, [Take(w), Check(w), Deliver(w)] + [], t);
      more := [e] + ([Take(w), Check(w), Deliver(w)] + []);
    } else {
      var s1 := StoreOne(s, route, w);
      var rest;
      rest, t := Overtake(s1, route, w, k);
      more := [Take(w), Check(w), Deliver(w)] + rest;
      assert s.queues[w] == [s.queues[w][0]] + s.queues[w][1..];
    }
  }

  /** A frame dropped by a full buffer, or thrown away with it, is nowhere. */
  lemma LossAtOnce(s: State, route: bytes -> nat, a: Action) returns (m: nat)
    requires Inv(s, route) && Enabled(s, route, a) && !Lossless(s, a)
    requires a.Deactivate? ==> s.buffer != []
    ensures var t := Do(s, route, a); m < |t.arrived| && Damaged(t, route, m)
  {
    var t := Do(s, route, a);
    var f;
    if a.Deliver? {
      f := s.hands[a.w].f;
      assert LaneOrdered(s, a.w) && LaneTidy(s, route, a.w);
      DeliverLanes(s, route, a.w);
      assert Located(s, route, f);
      SortedCons(f, Lane(t, a.w));
      assert f !in Lane(t, a.w) && f !in s.applied && f !in Buffered(s);
      assert !Located(t, route, f);
    } else {
      f := s.buffer[0];
      var w := Worker(|s.queues|, route, f.key);
      assert f in Buffered(s) && Located(s, route, f) && f in s.arrived;
      assert LaneOrdered(s, w) && Lane(t, w) == Lane(s, w);
      assert !Located(t, route, f);
    }
    m :| 0 <= m < |s.arrived| && s.arrived[m] == f;
  }

  /** A worker that chose the buffer before buffering ended strands its frame there, and the next
      frame of that origin overtakes it. */
  lemma LossLater(s: State, route: bytes -> nat, w: nat) returns (more: seq<Action>, t: State, m: nat)
    requires Inv(s, route) && Enabled(s, route, Deactivate) && s.buffer == []
    requires w < |s.hands| && s.hands[w].ToBuffer?
    ensures Leads(Do(s, route, Deactivate), route, more, t)
    ensures m < |t.arrived| && Damaged(t, route, m)
  {
    var f := s.hands[w].f;
    var s1 := Do(s, route, Deactivate);
    var s2 := Do(s1, route, Deliver(w));
    assert LaneOrdered(s, w) && LaneTidy(s, route, w);
    assert f in Lane(s, w) && Lane(s, w)[0] == f;
    assert Located(s, route, f);
    m :| 0 <= m < |s.arrived| && s.arrived[m] == f;
    var rest;
    rest, t := Overtake(s2, route, w, f.key);
    LeadsFirst(s1, route, Deliver(w), rest, t);
    more := [Deliver(w)] + rest;
    var g := Frame(f.key, |s.arrived|);
    assert t.applied[|t.applied| - 1] == g && g in t.applied;
    assert f !in s.queues[w] by { SortedCons(f, s.queues[w]); }
    assert f !in t.applied && t.arrived[m] == f;
    assert Overtaken(t, f);
  }

  /** The step criterion, both ways: a step from which no lossless run ever loses a frame of any
      origin, or lets a later one overtake it, is exactly a lossless step. */
  lemma StepOrderedIff(s: State, route: bytes -> nat, a: Action)
    requires Inv(s, route) && Enabled(s, route, a)
    ensures Lossless(s, a)
       <==> forall more, t, m: nat :: Leads(Do(s, route, a), route, more, t) && m < |t.arrived| ==> !Damaged(t, route, m)
  {
    hide Inv, Damaged;
    InvShaped(s, route);
    var s1 := Do(s, route, a);
    if Lossless(s, a) {
      LosslessInv(s, route, a);
      forall more, t, m: nat | Leads(s1, route, more, t) && m < |t.arrived| ensures !Damaged(t, route, m) {
        FollowInv(s1, route, more);
        InvUndamaged(t, route, m);
      }
    } else if a.Deactivate? && s.buffer == [] {
      var w :| 0 <= w < |s.hands| && s.hands[w].ToBuffer?;
      var more, t, m := LossLater(s, route, w);
    } else {
      var m := LossAtOnce(s, route, a);
      assert Leads(s1, route, [], s1);
    }
  }

  // ----- whole runs ---------------------------------------------------------------------

  /** The state after a run of possible, lossless steps. */
  ghost function After(workers: nat, route: bytes -> nat, run: seq<Action>): (r: Option<State>)
    requires workers > 0
    ensures r.Some? ==> Shaped(r.value)
  {
    if run == [] then Some(Initial(workers))
    else
      var a := run[|run| - 1];
      match After(workers, route, run[..|run| - 1])
      case None => None
      case Some(s) => if Enabled(s, route, a) && Lossless(s, a) then Some(Do(s, route, a)) else None
  }

  lemma {:induction false} RunInv(workers: nat, route: bytes -> nat, run: seq<Action>)
    requires workers > 0 && After(workers, route, run).Some?
    ensures Inv(After(workers, route, run).value, route)
    decreases |run|
  {
    if run != [] {
      RunInv(workers, route, run[..|run| - 1]);
      LosslessInv(After(workers, route, run[..|run| - 1]).value, route, run[|run| - 1]);
    }
  }

  /** In every interleaving of readers, workers and the drain: when a frame has reached the
      store, every earlier frame of its origin reached it before. */
  lemma PerOriginOrder(workers: nat, route: bytes -> nat, run: seq<Action>, i: nat, m: nat)
    requires workers > 0 && After(workers, route, run).Some?
    requires var s := After(workers, route, run).value;
             i < |s.applied| && m < s.applied[i].at < |s.arrived| && s.arrived[m].key == s.applied[i].key
    ensures var s := After(workers, route, run).value;
            exists j :: 0 <= j < i && s.applied[j] == s.arrived[m]
  {
    RunInv(workers, route, run);
    AppliedInOrder(After(workers, route, run).value, route, i, m);
  }

  lemma AppliedInOrder(s: State, route: bytes -> nat, i: nat, m: nat)
    requires Inv(s, route)
    requires i < |s.applied| && m < s.applied[i].at < |s.arrived| && s.arrived[m].key == s.applied[i].key
    ensures exists j :: 0 <= j < i && s.applied[j] == s.arrived[m]
  {
    hide LaneTidy, RoutedTo, Avoids, Lane, Buffered, Worker;
    var f, g := s.applied[i], s.arrived[m];
    var w := Worker(|s.queues|, route, g.key);
    assert f in s.applied && g.at == m;
    assert Located(s, route, g);
    assert g !in Buffered(s) by { assert Before(s.applied, Buffered(s)); }
    assert g !in Lane(s, w) by { assert LaneOrdered(s, w); }
    var j :| 0 <= j < |s.applied| && s.applied[j] == g;
  }

  /** Nothing is lost: a frame that arrived is applied, buffered or still with its worker. */
  lemma NothingLost(workers: nat, route: bytes -> nat, run: seq<Action>, m: nat)
    requires workers > 0 && After(workers, route, run).Some?
    requires m < |After(workers, route, run).value.arrived|
    ensures var s := After(workers, route, run).value; Located(s, route, s.arrived[m])
  {
    RunInv(workers, route, run);
  }

  lemma FollowFirst(s: State, route: bytes -> nat, a: Action, more: seq<Action>)
    requires Shaped(s) && Enabled(s, route, a)
    ensures Follow(s, route, [a] + more) == Follow(Do(s, route, a), route, more)
  {
    assert ([a] + more)[1..] == more;
  }

  /** One worker has taken the first of two frames of an origin and chosen the buffer. */
  function Chosen(k: bytes, cap: nat): State
  {
    State([[Frame(k, 1)]], [ToBuffer(Frame(k, 0))], true, if cap < 1 then 1 else cap, [], None, [],
          [Frame(k, 0), Frame(k, 1)])
  }

  lemma ChosenReached(route: bytes -> nat, k: bytes, cap: nat, more: seq<Action>)
    ensures Follow(Initial(1), route, [Activate(cap), Enqueue([], k), Enqueue([], k), Take(0), Check(0)] + more)
         == Follow(Chosen(k, cap), route, more)
  {
    hide Follow;
    var e, c := Enqueue([], k), if cap < 1 then 1 else cap;
    var s0 := State([[]], [Empty], true, c, [], None, [], []);
    var s1 := State([[Frame(k, 0)]], [Empty], true, c, [], None, [], [Frame(k, 0)]);
    var s2 := State([[Frame(k, 0), Frame(k, 1)]], [Empty], true, c, [], None, [], [Frame(k, 0), Frame(k, 1)]);
    var s3 := State([[Frame(k, 1)]], [Taken(Frame(k, 0))], true, c, [], None, [], [Frame(k, 0), Frame(k, 1)]);
    assert Do(s3, route, Check(0)) == Chosen(k, cap);
    FollowFirst(s3, route, Check(0), more);
    assert Do(s2, route, Take(0)) == s3;
    FollowFirst(s2, route, Take(0), [Check(0)] + more);
    assert RouteKey([], k) == k;
    assert Do(s1, route, e) == s2 by { assert Do(s1, route, e).queues[0] == s2.queues[0]; }
    FollowFirst(s1, route, e, [Take(0)] + ([Check(0)] + more));
    assert Do(s0, route, e) == s1 by { assert Do(s0, route, e).queues[0] == s1.queues[0]; }
    FollowFirst(s0, route, e, [e] + ([Take(0)] + ([Check(0)] + more)));
    assert Do(Initial(1), route, Activate(cap)) == s0;
    FollowFirst(Initial(1), route, Activate(cap), [e] + ([e] + ([Take(0)] + ([Check(0)] + more))));
    assert [Activate(cap), e, e, Take(0), Check(0)] + more
        == [Activate(cap)] + ([e] + ([e] + ([Take(0)] + ([Check(0)] + more))));
  }

  lemma ChosenStrands(route: bytes -> nat, k: bytes, cap: nat) returns (t: State)
    ensures Follow(Chosen(k, cap), route, [Deactivate, Deliver(0), Take(0), Check(0), Deliver(0)]) == Some(t)
    ensures t.arrived == [Frame(k, 0), Frame(k, 1)] && t.applied == [Frame(k, 1)] && t.buffer == [Frame(k, 0)]
    ensures Shaped(t)
  {
    var s5 := Do(Chosen(k, cap), route, Deactivate);
    var s6 := Do(s5, route, Deliver(0));
    t := StoreOne(s6, route, 0);
    hide Enabled, Do;
    assert Leads(t, route, [], t);
    var last := [Take(0), Check(0), Deliver(0)] + [];
    FollowFirst(s5, route, Deliver(0), last);
    FollowFirst(Chosen(k, cap), route, Deactivate, [Deliver(0)] + last);
    assert [Deactivate] + ([Deliver(0)] + last) == [Deactivate, Deliver(0), Take(0), Check(0), Deliver(0)];
  }

  /** A run from the start, with one worker, that does it: the worker chooses the buffer just
      before buffering ends, and the origin's second frame reaches the store without the first. */
  lemma StrandedFrame(route: bytes -> nat, k: bytes, cap: nat) returns (t: State)
    ensures Follow(Initial(1), route, [Activate(cap), Enqueue([], k), Enqueue([], k), Take(0), Check(0), Deactivate,
                                       Deliver(0), Take(0), Check(0), Deliver(0)]) == Some(t)
    ensures t.arrived == [Frame(k, 0), Frame(k, 1)] && t.applied == [Frame(k, 1)] && t.buffer == [Frame(k, 0)]
    ensures Damaged(t, route, 0)
  {
    t := ChosenStrands(route, k, cap);
    hide Follow, Chosen;
    var rest := [Deactivate, Deliver(0), Take(0), Check(0), Deliver(0)];
    ChosenReached(route, k, cap, rest);
    assert [Activate(cap), Enqueue([], k), Enqueue([], k), Take(0), Check(0)] + rest
        == [Activate(cap), Enqueue([], k), Enqueue([], k), Take(0), Check(0), Deactivate,
            Deliver(0), Take(0), Check(0), Deliver(0)];
    assert Frame(k, 1) in t.applied && Overtaken(t, t.arrived[0]);
  }
}
