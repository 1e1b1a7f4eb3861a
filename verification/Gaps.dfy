/** Replication gap detection: which of a peer's sequence numbers are missing, for how long,
    and when they are declared lost. */
module Gaps {
  import opened Bytes

  const GAP_GRACE: int := 5_000 // milliseconds
  const GAP_TRACK_LIMIT: nat := 256

  type uint64 = n: int | 0 <= n < UINT64_SIZE

  const MAX_UINT64: uint64 := UINT64_SIZE - 1

  /** Unsigned 64-bit wrap-around. */
  function Wrap(n: int): uint64 { n % UINT64_SIZE }

  lemma SignedSum(a: int, b: int)
    ensures Signed(Signed(a) + Signed(b)) == Signed(a + b)
  {
    var s, t: int := Signed(a), Signed(b);
    var k := (a - s) / UINT64_SIZE + (b - t) / UINT64_SIZE;
    assert a + b == s + t + k * UINT64_SIZE;
  }

  type Missing = map<bytes, map<uint64, int>>

  /** What this node knows about its peers' streams, and what it has told the operator. */
  datatype State = State(
    last: map<bytes, uint64>,
    missing: Missing,
    gaps: nat,
    late: nat,
    lost: int64,
    resyncs: nat)

  const INITIAL := State(map[], map[], 0, 0, 0, 0)

  /** Arrival of a frame (its origin trimmed), one tick of the sweeper, or the reset that
      follows a resync. */
  datatype Event = Arrive(origin: bytes, seqNo: uint64, now: int) | Sweep(now: int) | Reset

  function PendingOf(m: Missing, o: bytes): map<uint64, int>
  {
    if o in m then m[o] else map[]
  }

  /** Always true; gives quantifiers over sequences something to match. */
  predicate IsSeq(q: uint64) { true }

  /** The sequences from `lo` up to, not including, `hi`. */
  function Range(lo: nat, hi: nat): set<uint64>
  {
    set q: uint64 {:trigger IsSeq(q)} | lo <= q < hi && IsSeq(q)
  }

  lemma {:induction false} RangeSize(lo: nat, hi: nat)
    requires lo <= hi <= UINT64_SIZE
    ensures |Range(lo, hi)| == hi - lo
    decreases hi - lo
  {
    if lo < hi {
      RangeSize(lo + 1, hi);
      assert Range(lo, hi) == {lo} + Range(lo + 1, hi);
    } else {
      assert Range(lo, hi) == {};
    }
  }

  /** `prev + 1` and `got - prev - 1` as the hardware computes them. */
  function Next(prev: uint64): uint64 { Wrap(prev + 1) }
  function Missed(prev: uint64, got: uint64): uint64 { Wrap(got - prev - 1) }

  /** The sequences `note` walks over. */
  function Skipped(prev: uint64, got: uint64): set<uint64> { Range(Next(prev), got) }

  function NoteGap(m: Missing, o: bytes, prev: uint64, got: uint64, deadline: int): Missing
  {
    m[o := PendingOf(m, o) + map q | q in Skipped(prev, got) :: deadline]
  }

  function Strike(m: Missing, o: bytes, q: uint64): Missing
  {
    if o !in m then m
    else if m[o] - {q} == map[] then m - {o}
    else m[o := m[o] - {q}]
  }

  function Unexpired(p: map<uint64, int>, now: int): map<uint64, int>
  {
    map q | q in p && p[q] > now :: p[q]
  }

  function LateIn(p: map<uint64, int>, now: int): set<uint64> { set q | q in p && p[q] <= now }

  /** The overdue sequences of one origin. */
  function LateOf(m: Missing, o: bytes, now: int): set<uint64> { LateIn(PendingOf(m, o), now) }

  function Kept(m: Missing, now: int): Missing
  {
    map o | o in m && Unexpired(m[o], now) != map[] :: Unexpired(m[o], now)
  }

  function Overdue(m: Missing, now: int): set<(bytes, uint64)>
  {
    set o, q | o in m && q in m[o] && m[o][q] <= now :: (o, q)
  }

  function Report(s: State, n: int): State
  {
    s.(lost := Signed(s.lost + Signed(n)), resyncs := s.resyncs + 1)
  }

  function ArriveStep(self: bytes, s: State, o: bytes, q: uint64, now: int): State
  {
    if o == [] || q == 0 || o == self then s
    else if o !in s.last then s.(last := s.last[o := q])
    else
      var prev := s.last[o];
      var next := Next(prev);
      if q == next then s.(last := s.last[o := q])
      else if q > next then
        var s1 := s.(last := s.last[o := q], gaps := s.gaps + 1);
        if Missed(prev, q) > GAP_TRACK_LIMIT then Report(s1, Missed(prev, q))
        else s1.(missing := NoteGap(s.missing, o, prev, q, now + GAP_GRACE))
      else if q == 1 then s.(last := s.last[o := 1])
      else s.(missing := Strike(s.missing, o, q), late := s.late + 1)
  }

  function Step(self: bytes, s: State, e: Event): State
  {
    match e
    case Arrive(o, q, now) => ArriveStep(self, s, o, q, now)
    case Sweep(now) =>
      var s1 := s.(missing := Kept(s.missing, now));
      if Overdue(s.missing, now) == {} then s1 else Report(s1, |Overdue(s.missing, now)|)
    case Reset => s.(last := map[], missing := map[])
  }

  function Run(self: bytes, trace: seq<Event>): State
  {
    if trace == [] then INITIAL
    else Step(self, Run(self, trace[..|trace| - 1]), trace[|trace| - 1])
  }

  // ----- the reference: what really happened to one origin --------------------------------

  /** The first, the highest and all sequences that arrived from one origin, and those that
      were declared lost. */
  datatype Ledger =
    | Unseen
    | Ledger(first: uint64, highest: uint64, arrived: set<uint64>, reported: set<uint64>)

  /** The sequences of `o` that event `e` declares lost. */
  ghost function Newly(self: bytes, s: State, e: Event, o: bytes): set<uint64>
  {
    match e
    case Arrive(p, q, _) =>
      if p == o && o != [] && q != 0 && o != self && o in s.last && q > Next(s.last[o])
         && Missed(s.last[o], q) > GAP_TRACK_LIMIT
      then Skipped(s.last[o], q) else {}
    case Sweep(now) => LateOf(s.missing, o, now)
    case Reset => {}
  }

  ghost function Observe(self: bytes, s: State, l: Ledger, e: Event, o: bytes): Ledger
  {
    var lost := Newly(self, s, e, o);
    if e.Reset? then Unseen else
    match l
    case Unseen =>
      if e.Arrive? && e.origin == o && e.seqNo != 0 then Ledger(e.seqNo, e.seqNo, {e.seqNo}, {}) else l
    case Ledger(f, h, a, r) =>
      if e.Arrive? && e.origin == o && e.seqNo != 0
      then Ledger(f, if e.seqNo > h then e.seqNo else h, a + {e.seqNo}, r + lost)
      else l.(reported := r + lost)
  }

  ghost function LedgerOf(self: bytes, trace: seq<Event>, o: bytes): Ledger
  {
    if trace == [] then Unseen
    else
      var before := trace[..|trace| - 1];
      Observe(self, Run(self, before), LedgerOf(self, before, o), trace[|trace| - 1], o)
  }

  function Window(f: uint64, h: uint64): set<uint64> { Range(f + 1, h) }

  /** Pending is exactly what lies strictly between the first and the highest sequence and
      has neither arrived nor been reported. */
  ghost predicate Exact(s: State, l: Ledger, o: bytes)
  {
    match l
    case Unseen => o !in s.last && PendingOf(s.missing, o) == map[]
    case Ledger(f, h, a, r) =>
      && o in s.last && s.last[o] == h && 1 <= f <= h
      && f in a && h in a && (forall q :: q in a ==> 1 <= q <= h)
      && r <= Window(f, h)
      && PendingOf(s.missing, o).Keys == Window(f, h) - a - r
  }

  /** A peer this node keeps a position for. */
  predicate Tracked(self: bytes, o: bytes) { o != [] && o != self }

  /** The arrivals that keep the accounting exact: not a sequence 1 behind a later one, which
      is always read as a restart, and nothing after the highest 64-bit sequence. */
  predicate Benign(s: State, e: Event, o: bytes)
  {
    e.Arrive? && e.origin == o && e.seqNo != 0 && o in s.last ==>
      s.last[o] != MAX_UINT64 && (e.seqNo == 1 ==> s.last[o] == 1)
  }

  // ----- one step -----------------------------------------------------------------------

  lemma OverdueOf(m: Missing, now: int, o: bytes)
    ensures PendingOf(Kept(m, now), o) == Unexpired(PendingOf(m, o), now)
  {
    assert Unexpired(map[], now) == map[];
  }

  lemma StrikeOf(m: Missing, o: bytes, q: uint64, p: bytes)
    ensures PendingOf(Strike(m, o, q), p) == if p == o then PendingOf(m, o) - {q} else PendingOf(m, p)
  {
  }

  lemma NoteOf(m: Missing, o: bytes, prev: uint64, got: uint64, d: int, p: bytes)
    ensures PendingOf(NoteGap(m, o, prev, got, d), p).Keys
         == PendingOf(m, p).Keys + if p == o then Skipped(prev, got) else {}
  {
  }

  /** Another origin's frames change nothing here. */
  lemma OtherOrigin(self: bytes, s: State, l: Ledger, e: Event, o: bytes)
    requires Tracked(self, o) && Exact(s, l, o)
    requires e.Arrive? && (e.origin != o || e.seqNo == 0)
    ensures Exact(Step(self, s, e), Observe(self, s, l, e, o), o)
    ensures Newly(self, s, e, o) == {}
  {
    StrikeOf(s.missing, e.origin, e.seqNo, o);
    if e.origin in s.last {
      NoteOf(s.missing, e.origin, s.last[e.origin], e.seqNo, e.now + GAP_GRACE, o);
    }
  }

  lemma SweepExact(self: bytes, s: State, l: Ledger, now: int, o: bytes)
    requires Tracked(self, o) && Exact(s, l, o)
    ensures Exact(Step(self, s, Sweep(now)), Observe(self, s, l, Sweep(now), o), o)
  {
    OverdueOf(s.missing, now, o);
    if l.Ledger? {
      var p := PendingOf(s.missing, o);
      var lost := Newly(self, s, Sweep(now), o);
      assert Unexpired(p, now).Keys == p.Keys - lost;
    }
  }

  /** A frame further ahead than the next: the skipped sequences become pending or, when there
      are too many, are reported at once. */
  lemma GapExact(self: bytes, s: State, l: Ledger, e: Event, o: bytes)
    requires Tracked(self, o) && Exact(s, l, o) && l.Ledger?
    requires e.Arrive? && e.origin == o && e.seqNo > l.highest + 1
    ensures Exact(Step(self, s, e), Observe(self, s, l, e, o), o)
  {
    var f, h, q := l.first, l.highest, e.seqNo;
    assert Next(h) == h + 1 && Missed(h, q) == q - h - 1;
    assert Skipped(h, q) == Window(h, q);
    NoteOf(s.missing, o, h, q, e.now + GAP_GRACE, o);
    assert Window(f, q) - (l.arrived + {q}) == (Window(f, h) - l.arrived) + Window(h, q);
  }

  lemma LateExact(self: bytes, s: State, l: Ledger, e: Event, o: bytes)
    requires Tracked(self, o) && Exact(s, l, o) && l.Ledger?
    requires e.Arrive? && e.origin == o && 1 <= e.seqNo <= l.highest
    requires Benign(s, e, o)
    ensures Exact(Step(self, s, e), Observe(self, s, l, e, o), o)
  {
    StrikeOf(s.missing, o, e.seqNo, o);
    assert Next(l.highest) == l.highest + 1;
    if e.seqNo == 1 {
      assert Window(l.first, l.highest) == {};
    }
  }

  /** The step criterion, both ways: from an exact state an arrival leaves an exact state if
      and only if it is benign. */
  lemma ArrivalExactIff(self: bytes, s: State, l: Ledger, e: Event, o: bytes)
    requires Tracked(self, o) && Exact(s, l, o) && e.Arrive?
    ensures Exact(Step(self, s, e), Observe(self, s, l, e, o), o) <==> Benign(s, e, o)
  {
    if e.origin != o || e.seqNo == 0 || l.Unseen? {
      if e.origin != o || e.seqNo == 0 { OtherOrigin(self, s, l, e, o); }
    } else if s.last[o] == MAX_UINT64 {
      // Wrapped to zero: every arrival looks like a gap starting at sequence 0.
      assert Next(s.last[o]) == 0;
      NoteOf(s.missing, o, s.last[o], e.seqNo, e.now + GAP_GRACE, o);
      assert Missed(s.last[o], e.seqNo) == e.seqNo;
      assert 0 in Skipped(s.last[o], e.seqNo);
    } else if e.seqNo > l.highest + 1 {
      GapExact(self, s, l, e, o);
    } else if e.seqNo <= l.highest {
      if Benign(s, e, o) { LateExact(self, s, l, e, o); }
    } else {
      assert Next(s.last[o]) == e.seqNo;
      assert Window(l.first, e.seqNo) - {e.seqNo} - l.arrived == Window(l.first, l.highest) - l.arrived;
    }
  }

  /** Nothing is reported twice, and nothing that has arrived is reported. */
  lemma NewlyFresh(self: bytes, s: State, l: Ledger, e: Event, o: bytes)
    requires Tracked(self, o) && Exact(s, l, o) && (e.Arrive? ==> Benign(s, e, o))
    ensures l.Ledger? ==> Newly(self, s, e, o) !! (l.arrived + l.reported)
    ensures l.Unseen? ==> Newly(self, s, e, o) == {}
  {
  }

  // ----- whole runs ---------------------------------------------------------------------

  ghost predicate BenignRun(self: bytes, trace: seq<Event>, o: bytes)
  {
    trace == [] ||
    var before := trace[..|trace| - 1];
    BenignRun(self, before, o) && Benign(Run(self, before), trace[|trace| - 1], o)
  }

  lemma {:induction false} BenignPrefix(self: bytes, trace: seq<Event>, o: bytes, n: nat)
    requires BenignRun(self, trace, o) && n <= |trace|
    ensures BenignRun(self, trace[..n], o)
    ensures n < |trace| ==> Benign(Run(self, trace[..n]), trace[n], o)
    decreases |trace|
  {
    if n == |trace| {
      assert trace[..n] == trace;
    } else if n < |trace| - 1 {
      BenignPrefix(self, trace[..|trace| - 1], o, n);
      assert trace[..|trace| - 1][..n] == trace[..n];
    }
  }

  /** Gap accounting is exact after every run of arrivals, sweeps and resets. */
  lemma {:induction false} GapAccounting(self: bytes, trace: seq<Event>, o: bytes)
    requires Tracked(self, o) && BenignRun(self, trace, o)
    ensures Exact(Run(self, trace), LedgerOf(self, trace, o), o)
    decreases |trace|
  {
    if trace != [] {
      var n := |trace| - 1;
      GapAccounting(self, trace[..n], o);
      var s, l := Run(self, trace[..n]), LedgerOf(self, trace[..n], o);
      match trace[n] {
        case Arrive(_, _, _) => ArrivalExactIff(self, s, l, trace[n], o);
        case Sweep(now) => SweepExact(self, s, l, now, o);
        case Reset =>
      }
    }
  }

  /** At every moment of a run, what is declared lost had not arrived and had not been
      declared lost before. */
  lemma ReportedOnce(self: bytes, trace: seq<Event>, o: bytes, i: nat)
    requires Tracked(self, o) && BenignRun(self, trace, o) && i < |trace|
    ensures var l := LedgerOf(self, trace[..i], o);
            var lost := Newly(self, Run(self, trace[..i]), trace[i], o);
            if l.Ledger? then lost !! (l.arrived + l.reported) else lost == {}
  {
    BenignPrefix(self, trace, o, i);
    GapAccounting(self, trace[..i], o);
    NewlyFresh(self, Run(self, trace[..i]), LedgerOf(self, trace[..i], o), trace[i], o);
  }

  // ----- the grace period ---------------------------------------------------------------

  /** Event `j` is the arrival that skipped over `q`. */
  ghost predicate SkippedAt(self: bytes, trace: seq<Event>, j: int, o: bytes, q: uint64)
  {
    && 0 <= j < |trace| && trace[j].Arrive? && trace[j].origin == o
    && o in Run(self, trace[..j]).last
    && q in Skipped(Run(self, trace[..j]).last[o], trace[j].seqNo)
  }

  /** Every pending sequence was skipped by some arrival and waits out the grace period from
      that moment on. */
  lemma {:induction false} DeadlineOrigin(self: bytes, trace: seq<Event>, o: bytes, q: uint64) returns (j: int)
    requires q in PendingOf(Run(self, trace).missing, o)
    ensures SkippedAt(self, trace, j, o, q)
    ensures PendingOf(Run(self, trace).missing, o)[q] == trace[j].now + GAP_GRACE
    decreases |trace|
  {
    var n := |trace| - 1;
    var before, e := trace[..n], trace[n];
    var s := Run(self, before);
    if e.Sweep? { OverdueOf(s.missing, e.now, o); }
    if e.Arrive? { StrikeOf(s.missing, e.origin, e.seqNo, o); }
    if e.Arrive? && e.origin == o && o in s.last && q in Skipped(s.last[o], e.seqNo)
       && PendingOf(Run(self, trace).missing, o)[q] == e.now + GAP_GRACE {
      j := n;
    } else {
      assert q in PendingOf(s.missing, o);
      assert PendingOf(s.missing, o)[q] == PendingOf(Run(self, trace).missing, o)[q];
      j := DeadlineOrigin(self, before, o, q);
      assert trace[..j] == before[..j];
    }
  }

  /** A sweep reports nothing before its grace period is over, and then reports it at once. */
  lemma GraceRespected(self: bytes, trace: seq<Event>, i: nat, o: bytes, q: uint64)
    requires i < |trace| && trace[i].Sweep? && q in PendingOf(Run(self, trace[..i]).missing, o)
    ensures exists j ::
              && SkippedAt(self, trace[..i], j, o, q)
              && (q in Newly(self, Run(self, trace[..i]), trace[i], o) <==>
                  trace[i].now >= trace[j].now + GAP_GRACE)
  {
    var j := DeadlineOrigin(self, trace[..i], o, q);
    assert trace[..i][j] == trace[j];
  }

  // ----- the lost counter ---------------------------------------------------------------

  ghost function NewlyPairs(self: bytes, s: State, e: Event): set<(bytes, uint64)>
  {
    match e
    case Arrive(o, _, _) => Pairs(o, Newly(self, s, e, o))
    case Sweep(now) => Overdue(s.missing, now)
    case Reset => {}
  }

  ghost function AllReported(self: bytes, trace: seq<Event>): set<(bytes, uint64)>
  {
    if trace == [] then {}
    else
      var before := trace[..|trace| - 1];
      AllReported(self, before) + NewlyPairs(self, Run(self, before), trace[|trace| - 1])
  }

  ghost function Pairs(o: bytes, qs: set<uint64>): set<(bytes, uint64)> { set q | q in qs :: (o, q) }

  lemma {:induction false} PairCount(o: bytes, qs: set<uint64>)
    ensures |Pairs(o, qs)| == |qs|
  {
    if qs != {} {
      var x :| x in qs;
      PairCount(o, qs - {x});
      assert Pairs(o, qs) == Pairs(o, qs - {x}) + {(o, x)};
      assert (o, x) !in Pairs(o, qs - {x});
    } else {
      assert Pairs(o, qs) == {};
    }
  }

  lemma NewlyPairsOf(self: bytes, s: State, e: Event, o: bytes, q: uint64)
    ensures (o, q) in NewlyPairs(self, s, e) <==> q in Newly(self, s, e, o)
  {
  }

  /** Only tracked origins ever have anything pending. */
  lemma {:induction false} OnlyTracked(self: bytes, trace: seq<Event>, o: bytes)
    requires o in Run(self, trace).missing
    ensures Tracked(self, o)
    decreases |trace|
  {
    var before := trace[..|trace| - 1];
    if o in Run(self, before).missing { OnlyTracked(self, before, o); }
  }

  lemma {:induction false} ReportedInLedger(self: bytes, trace: seq<Event>, o: bytes, q: uint64)
    requires Reset !in trace && Tracked(self, o) && BenignRun(self, trace, o)
    ensures (o, q) in AllReported(self, trace)
       <==> LedgerOf(self, trace, o).Ledger? && q in LedgerOf(self, trace, o).reported
    decreases |trace|
  {
    if trace != [] {
      var n := |trace| - 1;
      var before := trace[..n];
      ReportedInLedger(self, before, o, q);
      GapAccounting(self, before, o);
      NewlyPairsOf(self, Run(self, before), trace[n], o, q);
      NewlyFresh(self, Run(self, before), LedgerOf(self, before, o), trace[n], o);
    }
  }

  lemma SignedZero(n: int64)
    ensures Signed(n + Signed(0)) == n
  {
  }

  /** A step adds to the counter exactly the number of sequences it declares lost. */
  lemma StepCount(self: bytes, s: State, e: Event)
    requires e.Arrive? ==> Benign(s, e, e.origin)
    ensures Step(self, s, e).lost == Signed(s.lost + Signed(|NewlyPairs(self, s, e)|))
  {
    SignedZero(s.lost);
    if e.Arrive? {
      var o := e.origin;
      PairCount(o, Newly(self, s, e, o));
      if Newly(self, s, e, o) != {} {
        RangeSize(Next(s.last[o]), e.seqNo);
        assert Missed(s.last[o], e.seqNo) == e.seqNo - Next(s.last[o]);
        assert Step(self, s, e).lost == Signed(s.lost + Signed(Missed(s.last[o], e.seqNo)));
      } else {
        NotReported(self, s, e);
      }
    }
  }

  lemma NotReported(self: bytes, s: State, e: Event)
    requires e.Arrive? && Benign(s, e, e.origin) && Newly(self, s, e, e.origin) == {}
    ensures Step(self, s, e).lost == s.lost
  {
    if e.origin in s.last && Missed(s.last[e.origin], e.seqNo) > GAP_TRACK_LIMIT && e.seqNo > Next(s.last[e.origin]) {
      assert Next(s.last[e.origin]) in Skipped(s.last[e.origin], e.seqNo);
    }
  }

  ghost predicate BenignForAll(self: bytes, trace: seq<Event>)
  {
    Reset !in trace && forall o :: Tracked(self, o) ==> BenignRun(self, trace, o)
  }

  /** No step reports a pair some earlier step reported. */
  lemma {:induction false} FreshPairs(self: bytes, trace: seq<Event>)
    requires trace != [] && BenignForAll(self, trace)
    ensures var before := trace[..|trace| - 1];
            AllReported(self, before) !! NewlyPairs(self, Run(self, before), trace[|trace| - 1])
  {
    var n := |trace| - 1;
    var before, e := trace[..n], trace[n];
    forall o, q | (o, q) in NewlyPairs(self, Run(self, before), e)
      ensures (o, q) !in AllReported(self, before)
    {
      NewlyPairsOf(self, Run(self, before), e, o, q);
      if e.Sweep? { OnlyTracked(self, before, o); }
      assert BenignRun(self, trace, o);
      ReportedInLedger(self, before, o, q);
      ReportedOnce(self, trace, o, n);
    }
  }

  lemma {:induction false} BenignForAllPrefix(self: bytes, trace: seq<Event>)
    requires trace != [] && BenignForAll(self, trace)
    ensures BenignForAll(self, trace[..|trace| - 1])
    ensures var e := trace[|trace| - 1];
            e.Arrive? && Tracked(self, e.origin) ==> Benign(Run(self, trace[..|trace| - 1]), e, e.origin)
  {
    forall o | Tracked(self, o) ensures BenignRun(self, trace[..|trace| - 1], o) {
      assert BenignRun(self, trace, o);
    }
    if trace[|trace| - 1].Arrive? && Tracked(self, trace[|trace| - 1].origin) {
      assert BenignRun(self, trace, trace[|trace| - 1].origin);
    }
  }

  /** How many sequences all the steps of a run declared lost, counted step by step. */
  ghost function ReportCount(self: bytes, trace: seq<Event>): nat
  {
    if trace == [] then 0
    else
      var before := trace[..|trace| - 1];
      ReportCount(self, before) + |NewlyPairs(self, Run(self, before), trace[|trace| - 1])|
  }

  lemma {:induction false} LostIsCount(self: bytes, trace: seq<Event>)
    requires BenignForAll(self, trace)
    ensures Run(self, trace).lost == Signed(ReportCount(self, trace))
    decreases |trace|
  {
    if trace != [] {
      var before := trace[..|trace| - 1];
      BenignForAllPrefix(self, trace);
      LostIsCount(self, before);
      StepLost(self, Run(self, before), trace[|trace| - 1], ReportCount(self, before));
    }
  }

  lemma {:induction false} CountIsDistinct(self: bytes, trace: seq<Event>)
    requires BenignForAll(self, trace)
    ensures ReportCount(self, trace) == |AllReported(self, trace)|
    decreases |trace|
  {
    if trace != [] {
      BenignForAllPrefix(self, trace);
      CountIsDistinct(self, trace[..|trace| - 1]);
      FreshPairs(self, trace);
    }
  }

  /** The lost counter is the number of distinct sequences ever declared lost (as a signed
      64-bit number), jumps beyond the tracking limit included. */
  lemma LostCounter(self: bytes, trace: seq<Event>)
    requires BenignForAll(self, trace)
    ensures Run(self, trace).lost == Signed(|AllReported(self, trace)|)
  {
    LostIsCount(self, trace);
    CountIsDistinct(self, trace);
  }

  lemma StepLost(self: bytes, s: State, e: Event, sofar: nat)
    requires s.lost == Signed(sofar)
    requires e.Arrive? && Tracked(self, e.origin) ==> Benign(s, e, e.origin)
    ensures Step(self, s, e).lost == Signed(sofar + |NewlyPairs(self, s, e)|)
  {
    if e.Arrive? && !Tracked(self, e.origin) {
      PairCount(e.origin, {});
    } else {
      StepCount(self, s, e);
      SignedSum(sofar, |NewlyPairs(self, s, e)|);
    }
  }

  // ----- what the excluded arrivals do --------------------------------------------------

  lemma RunSnoc(self: bytes, trace: seq<Event>, e: Event)
    ensures Run(self, trace + [e]) == Step(self, Run(self, trace), e)
  {
    assert (trace + [e])[..|trace|] == trace;
  }

  lemma LedgerSnoc(self: bytes, trace: seq<Event>, e: Event, o: bytes)
    ensures LedgerOf(self, trace + [e], o)
         == Observe(self, Run(self, trace), LedgerOf(self, trace, o), e, o)
  {
    assert (trace + [e])[..|trace|] == trace;
  }

  /** A node that joins a stream at 5, sees 6, and then gets sequence 1 as a straggler takes it
      for a restart. When 7 arrives it counts 5 and 6 as missing, and after the grace period it
      declares both lost although both had arrived. */
  lemma RestartMisread(self: bytes, o: bytes, t: int)
    requires Tracked(self, o)
    ensures var trace := [Arrive(o, 5, t), Arrive(o, 6, t), Arrive(o, 1, t), Arrive(o, 7, t)];
            && {5, 6} <= LedgerOf(self, trace, o).arrived
            && {5, 6} <= Newly(self, Run(self, trace), Sweep(t + GAP_GRACE), o)
  {
    var e5, e6, e1, e7 := Arrive(o, 5, t), Arrive(o, 6, t), Arrive(o, 1, t), Arrive(o, 7, t);
    RunSnoc(self, [], e5);
    LedgerSnoc(self, [], e5, o);
    assert [] + [e5] == [e5];
    RunSnoc(self, [e5], e6);
    LedgerSnoc(self, [e5], e6, o);
    assert [e5] + [e6] == [e5, e6];
    RunSnoc(self, [e5, e6], e1);
    LedgerSnoc(self, [e5, e6], e1, o);
    assert [e5, e6] + [e1] == [e5, e6, e1];
    RunSnoc(self, [e5, e6, e1], e7);
    LedgerSnoc(self, [e5, e6, e1], e7, o);
    assert [e5, e6, e1] + [e7] == [e5, e6, e1, e7];
    assert Run(self, [e5, e6, e1]).last[o] == 1;
    assert 5 in Skipped(1, 7) && 6 in Skipped(1, 7);
  }

  // ----- the objects --------------------------------------------------------------------

  /** The sequences of each origin that have not arrived yet. */
  class GapTracker {
    var missing: Missing

    constructor ()
      ensures missing == map[]
    {
      missing := map[];
    }

    /** Records the sequences skipped between `prev` and `got`; true when there are too many. */
    method Note(origin: bytes, prev: uint64, got: uint64, now: int) returns (tooFar: bool)
      modifies this
      ensures tooFar <==> got > Next(prev) && Missed(prev, got) > GAP_TRACK_LIMIT
      ensures missing == if got <= Next(prev) || tooFar then old(missing)
                         else NoteGap(old(missing), origin, prev, got, now + GAP_GRACE)
    {
      if got <= Next(prev) { return false; }
      if Missed(prev, got) > GAP_TRACK_LIMIT { return true; }
      var deadline := now + GAP_GRACE;
      var m := PendingOf(missing, origin);
      var first := Next(prev);
      var q: int := first;
      while q < got
        invariant first <= q <= got
        invariant m == PendingOf(old(missing), origin) + map x | x in Range(first, q) :: deadline
      {
        m := m[q := deadline];
        q := q + 1;
      }
      missing := missing[origin := m];
      tooFar := false;
    }

    /** Strikes off a straggler. */
    method Arrived(origin: bytes, q: uint64)
      modifies this
      ensures missing == Strike(old(missing), origin, q)
    {
      if origin in missing {
        var m := missing[origin] - {q};
        if |m| == 0 {
          missing := missing - {origin};
        } else {
          missing := missing[origin := m];
        }
      }
    }

    /** How many sequences of each origin ran out of time; they are forgotten here. */
    method Expired(now: int) returns (out: map<bytes, nat>)
      modifies this
      ensures missing == Kept(old(missing), now)
      ensures out == LateCounts(old(missing), now)
    {
      ghost var start := missing;
      out := map[];
      var origins := missing.Keys;
      SweepingEnds(start, now);
      while origins != {}
        invariant origins <= start.Keys
        invariant missing == Sweeping(start, origins, now)
        invariant out == Counting(start, origins, now)
      {
        var o :| o in origins;
        SweepingStep(start, origins, o, Unexpired(start[o], now), now);
        var kept, n := SplitExpired(missing[o], now);
        CountingStep(start, origins, o, n, now);
        if n > 0 {
          out := out[o := n];
        }
        if kept == map[] {
          missing := missing - {o};
        } else {
          missing := missing[o := kept];
        }
        origins := origins - {o};
      }
    }

    method Reset()
      modifies this
      ensures missing == map[]
    {
      missing := map[];
    }
  }

  /** The map half way through `expired`, with `origins` still to be looked at. */
  ghost function Sweeping(m: Missing, origins: set<bytes>, now: int): Missing
  {
    map o | o in m && (o in origins || Unexpired(m[o], now) != map[])
      :: if o in origins then m[o] else Unexpired(m[o], now)
  }

  /** The counts half way through `expired`. */
  ghost function Counting(m: Missing, origins: set<bytes>, now: int): map<bytes, nat>
  {
    map o | o in m && o !in origins && LateOf(m, o, now) != {} :: |LateOf(m, o, now)|
  }

  /** How many sequences of each origin are overdue, for those that have any. */
  ghost function LateCounts(m: Missing, now: int): map<bytes, nat> { Counting(m, {}, now) }

  lemma SweepingEnds(m: Missing, now: int)
    ensures Sweeping(m, m.Keys, now) == m && Sweeping(m, {}, now) == Kept(m, now)
    ensures Counting(m, m.Keys, now) == map[]
  {
  }

  lemma SweepingStep(m: Missing, origins: set<bytes>, o: bytes, kept: map<uint64, int>, now: int)
    requires o in origins && origins <= m.Keys && kept == Unexpired(m[o], now)
    ensures o in Sweeping(m, origins, now) && Sweeping(m, origins, now)[o] == m[o]
    ensures kept == map[] ==> Sweeping(m, origins - {o}, now) == Sweeping(m, origins, now) - {o}
    ensures kept != map[] ==> Sweeping(m, origins - {o}, now) == Sweeping(m, origins, now)[o := kept]
  {
  }

  lemma CountingStep(m: Missing, origins: set<bytes>, o: bytes, n: nat, now: int)
    requires o in origins && origins <= m.Keys && n == |LateOf(m, o, now)|
    ensures n == 0 ==> Counting(m, origins - {o}, now) == Counting(m, origins, now)
    ensures n > 0 ==> Counting(m, origins - {o}, now) == Counting(m, origins, now)[o := n]
  {
  }

  /** The inner loop of `expired`: one origin's map, its overdue entries deleted and counted. */
  method SplitExpired(m: map<uint64, int>, now: int) returns (kept: map<uint64, int>, n: nat)
    ensures kept == Unexpired(m, now)
    ensures n == |LateIn(m, now)|
  {
    kept, n := m, 0;
    var todo := m.Keys;
    ghost var late: set<uint64> := {};
    while todo != {}
      invariant todo <= m.Keys
      invariant kept == map q | q in m && (q in todo || m[q] > now) :: m[q]
      invariant late == (set q | q in m && q !in todo && m[q] <= now) && n == |late|
    {
      var q :| q in todo;
      todo := todo - {q};
      if m[q] <= now {
        n := n + 1;
        kept := kept - {q};
        late := late + {q};
      }
    }
    assert late == LateIn(m, now);
  }

  /** The part of the peer service that watches sequence numbers. */
  class ReplicationMonitor {
    const nodeID: bytes
    const tracker: GapTracker
    var originSeq: map<bytes, uint64>
    var gapEvents: nat
    var lateEvents: nat
    var lostEvents: int64
    var resyncRequests: nat

    constructor (id: bytes)
      ensures View() == INITIAL && nodeID == id && fresh(tracker)
    {
      nodeID := id;
      tracker := new GapTracker();
      originSeq, gapEvents, lateEvents, lostEvents, resyncRequests := map[], 0, 0, 0, 0;
    }

    ghost function View(): State
      reads this, tracker
    {
      State(originSeq, tracker.missing, gapEvents, lateEvents, lostEvents, resyncRequests)
    }

    method ConfirmLoss(missed: int)
      modifies this
      ensures View() == Report(old(View()), missed)
      ensures tracker.missing == old(tracker.missing)
    {
      lostEvents := Signed(lostEvents + Signed(missed));
      resyncRequests := resyncRequests + 1;
    }

    /** One frame read off a peer connection. The origin is as it was on the wire. */
    method NoteReplArrival(wireOrigin: bytes, q: uint64, now: int)
      modifies this, tracker
      ensures View() == Step(nodeID, old(View()), Arrive(TrimSpace(wireOrigin), q, now))
    {
      var origin := TrimSpace(wireOrigin);
      if origin == [] || q == 0 || origin == nodeID { return; }
      if origin !in originSeq {
        originSeq := originSeq[origin := q];
        return;
      }
      var prev := originSeq[origin];
      if q == Next(prev) {
        originSeq := originSeq[origin := q];
      } else if q > Next(prev) {
        var missed := Missed(prev, q);
        originSeq := originSeq[origin := q];
        gapEvents := gapEvents + 1;
        var tooFar := tracker.Note(origin, prev, q, now);
        if tooFar {
          ConfirmLoss(missed);
        }
      } else if q == 1 {
        originSeq := originSeq[origin := q];
      } else {
        tracker.Arrived(origin, q);
        lateEvents := lateEvents + 1;
      }
    }

    /** One tick of the sweeper. */
    method WatchGaps(now: int)
      modifies this, tracker
      ensures View() == Step(nodeID, old(View()), Sweep(now))
    {
      ghost var start := tracker.missing;
      var lost := tracker.Expired(now);
      NoCounts(start, now);
      if |lost| == 0 { return; }
      var total := TotalLost(lost, start, now);
      ConfirmLoss(total);
    }

    /** Forgets every position, after a resync has replaced the dataset. */
    method ResetReplicationTracking()
      modifies this, tracker
      ensures View() == Step(nodeID, old(View()), Reset)
    {
      originSeq := map[];
      tracker.Reset();
    }
  }

  lemma NoCounts(m: Missing, now: int)
    ensures LateCounts(m, now) == map[] <==> Overdue(m, now) == {}
  {
    if p :| p in Overdue(m, now) {
      assert p.1 in LateOf(m, p.0, now);
      assert p.0 in LateCounts(m, now);
    }
    if o :| o in LateCounts(m, now) {
      var q :| q in LateOf(m, o, now);
      assert (o, q) in Overdue(m, now);
    }
  }

  /** The overdue pairs of the origins not in `todo`. */
  ghost function CountedPairs(m: Missing, todo: set<bytes>, now: int): set<(bytes, uint64)>
  {
    set p | p in Overdue(m, now) && p.0 !in todo
  }

  lemma CountedStep(m: Missing, todo: set<bytes>, o: bytes, now: int)
    requires o in todo
    ensures |CountedPairs(m, todo - {o}, now)| == |CountedPairs(m, todo, now)| + |LateOf(m, o, now)|
  {
    hide Overdue, LateOf, Pairs;
    var late := LateOf(m, o, now);
    PairCount(o, late);
    OverduePairs(m, o, now);
    assert CountedPairs(m, todo - {o}, now) == CountedPairs(m, todo, now) + Pairs(o, late);
  }

  lemma OverduePairs(m: Missing, o: bytes, now: int)
    ensures forall p :: p in Pairs(o, LateOf(m, o, now)) <==> p in Overdue(m, now) && p.0 == o
  {
  }

  /** Summing the per-origin counts gives the number of overdue sequences. */
  method TotalLost(lost: map<bytes, nat>, ghost m: Missing, now: int) returns (total: nat)
    requires lost == LateCounts(m, now)
    ensures total == |Overdue(m, now)|
  {
    total := 0;
    var todo := lost.Keys;
    assert CountedPairs(m, todo, now) == {} by {
      forall p | p in Overdue(m, now) ensures p.0 in todo { assert p.1 in LateOf(m, p.0, now); }
    }
    while todo != {}
      invariant todo <= lost.Keys && total == |CountedPairs(m, todo, now)|
    {
      var o :| o in todo;
      CountedStep(m, todo, o, now);
      todo := todo - {o};
      total := total + lost[o];
    }
    assert CountedPairs(m, todo, now) == Overdue(m, now);
  }
}
