/** The peer list: how addresses are added, and which of them may be forgotten automatically. */
module Membership {
  import opened Bytes

  datatype Source = Config | Manual | Discovery | Learned

  /** Operator intent is never forgotten; what was merely heard of may be. */
  predicate Forgettable(s: Source) { s.Discovery? || s.Learned? }

  datatype Meta = Meta(addr: bytes, source: Source, added: int, lastOK: int)

  /** An address in comparable form; how hosts and ports are canonicalized is left open. */
  function Norm(canon: bytes -> bytes, a: bytes): bytes { canon(TrimSpace(a)) }

  predicate Distinct(canon: bytes -> bytes, peers: seq<bytes>)
  {
    forall i, j :: 0 <= i < j < |peers| ==> Norm(canon, peers[i]) != Norm(canon, peers[j])
  }

  lemma {:induction false} TrimLeftEnds(s: bytes)
    ensures var t := TrimLeft(s, IsSpace); t == [] || !IsSpace(t[0])
  {
    if s != [] && IsSpace(s[0]) { TrimLeftEnds(s[1..]); }
  }

  lemma {:induction false} TrimRightEnds(s: bytes)
    ensures var t := TrimRight(s, IsSpace);
      t <= s && (t == [] || !IsSpace(t[|t| - 1]))
  {
    if s != [] && IsSpace(s[|s| - 1]) { TrimRightEnds(s[..|s| - 1]); }
  }

  lemma TrimTwice(s: bytes)
    ensures TrimSpace(TrimSpace(s)) == TrimSpace(s)
  {
    TrimLeftEnds(s);
    TrimRightEnds(TrimLeft(s, IsSpace));
  }

  /** On a list of distinct peers an address is known by its comparable form. */
  lemma SamePeer(canon: bytes -> bytes, peers: seq<bytes>, a: bytes, b: bytes)
    requires Distinct(canon, peers) && a in peers && b in peers && Norm(canon, a) == Norm(canon, b)
    ensures a == b
  {
    var i :| 0 <= i < |peers| && peers[i] == a;
    var j :| 0 <= j < |peers| && peers[j] == b;
    assert !(i < j) && !(j < i);
  }

  /** One question put to the peer list: the records as they stand, what the caller wants gone,
      and which addresses carry a live link. */
  datatype Query = Query(canon: bytes -> bytes, meta: map<bytes, Meta>, want: (Meta, bool) -> bool, connected: set<bytes>)

  /** An address the caller wants gone and may have. */
  predicate Candidate(q: Query, a: bytes)
  {
    var k := Norm(q.canon, a);
    k in q.meta && Forgettable(q.meta[k].source) && q.want(q.meta[k], k in q.connected)
  }

  /** The candidates taken in list order while more than one peer remains. */
  function Picked(q: Query, peers: seq<bytes>, remaining: nat): seq<bytes>
  {
    if peers == [] || remaining <= 1 then []
    else if Candidate(q, peers[0]) then [peers[0]] + Picked(q, peers[1..], remaining - 1)
    else Picked(q, peers[1..], remaining)
  }

  lemma PickedStep(q: Query, peers: seq<bytes>, i: nat, remaining: nat)
    requires i < |peers| && remaining > 1
    ensures Candidate(q, peers[i]) ==>
              Picked(q, peers[i..], remaining) == [peers[i]] + Picked(q, peers[i + 1..], remaining - 1)
    ensures !Candidate(q, peers[i]) ==> Picked(q, peers[i..], remaining) == Picked(q, peers[i + 1..], remaining)
  {
    assert peers[i..][1..] == peers[i + 1..];
  }

  lemma PickedEnd(q: Query, peers: seq<bytes>, remaining: nat)
    ensures peers == [] || remaining <= 1 ==> Picked(q, peers, remaining) == []
  {
  }

  lemma {:induction false} PickedCandidates(q: Query, peers: seq<bytes>, remaining: nat)
    ensures forall a :: a in Picked(q, peers, remaining) ==> a in peers && Candidate(q, a)
  {
    if peers != [] && remaining > 1 {
      PickedCandidates(q, peers[1..], if Candidate(q, peers[0]) then remaining - 1 else remaining);
    }
  }

  lemma {:induction false} PickedCount(q: Query, peers: seq<bytes>, remaining: nat)
    requires remaining >= 1
    ensures |Picked(q, peers, remaining)| < remaining
    ensures |Picked(q, peers, remaining)| == remaining - 1
            || forall a :: a in peers && Candidate(q, a) ==> a in Picked(q, peers, remaining)
  {
    if peers != [] && remaining > 1 {
      PickedCount(q, peers[1..], if Candidate(q, peers[0]) then remaining - 1 else remaining);
    }
  }

  /** A shorter selection of a list leaves something out, and one shorter by one leaves out
      exactly one element. */
  lemma {:induction false} PickedLeaves(q: Query, peers: seq<bytes>, remaining: nat)
    requires |Picked(q, peers, remaining)| < |peers|
    requires forall i, j :: 0 <= i < j < |peers| ==> peers[i] != peers[j]
    ensures exists a :: a in peers && a !in Picked(q, peers, remaining)
    ensures |Picked(q, peers, remaining)| == |peers| - 1 ==>
              forall a, b :: a in peers && b in peers && a !in Picked(q, peers, remaining) && b != a ==>
                b in Picked(q, peers, remaining)
  {
    var drop := Picked(q, peers, remaining);
    PickedCandidates(q, peers, remaining);
    if remaining <= 1 {
      assert peers[0] !in drop;
    } else if Candidate(q, peers[0]) {
      PickedLeaves(q, peers[1..], remaining - 1);
      var rest := Picked(q, peers[1..], remaining - 1);
      var a :| a in peers[1..] && a !in rest;
      assert a in peers && a !in drop;
    } else {
      PickedCandidates(q, peers[1..], remaining);
      assert peers[0] !in drop;
      if |drop| == |peers| - 1 {
        PickedAll(q, peers[1..], remaining);
      }
    }
  }

  lemma {:induction false} PickedAll(q: Query, peers: seq<bytes>, remaining: nat)
    ensures |Picked(q, peers, remaining)| <= |peers|
    ensures |Picked(q, peers, remaining)| == |peers| ==> Picked(q, peers, remaining) == peers
  {
    if peers != [] && remaining > 1 {
      PickedAll(q, peers[1..], if Candidate(q, peers[0]) then remaining - 1 else remaining);
    }
  }

  /** What a selection may and must contain: only candidates, never everything, and every
      candidate unless just one peer would be left. */
  lemma PickedFairly(q: Query, peers: seq<bytes>)
    requires Distinct(q.canon, peers)
    ensures var drop := Picked(q, peers, |peers|);
      && (forall a :: a in drop ==> a in peers && Candidate(q, a))
      && (peers != [] ==> exists a :: a in peers && a !in drop)
      && (forall a :: a in peers && a !in drop && Candidate(q, a) ==> forall b :: b in peers && b != a ==> b in drop)
  {
    PickedCandidates(q, peers, |peers|);
    if peers != [] {
      PickedCount(q, peers, |peers|);
      PickedLeaves(q, peers, |peers|);
    }
  }

  ghost function KeysOf(canon: bytes -> bytes, drop: seq<bytes>): set<bytes> { set a | a in drop :: Norm(canon, a) }

  lemma NoKeys(canon: bytes -> bytes)
    ensures KeysOf(canon, []) == {}
  {
  }

  lemma KeysOfSnoc(canon: bytes -> bytes, drop: seq<bytes>, a: bytes)
    ensures KeysOf(canon, drop + [a]) == KeysOf(canon, drop) + {Norm(canon, a)}
  {
  }

  /** A peer not yet visited shares its key with none of those dropped. */
  lemma NewKey(canon: bytes -> bytes, peers: seq<bytes>, i: nat, drop: seq<bytes>)
    requires Distinct(canon, peers) && i < |peers| && forall a :: a in drop ==> a in peers[..i]
    ensures Norm(canon, peers[i]) !in KeysOf(canon, drop)
  {
    forall a | a in drop ensures Norm(canon, a) != Norm(canon, peers[i]) {
      var j :| 0 <= j < i && peers[j] == a;
    }
  }

  /** Every peer that qualifies was dropped, or it is the one peer left. */
  ghost predicate AllButOne(peers: seq<bytes>, drop: seq<bytes>, qualifies: bytes -> bool)
  {
    forall a :: a in peers && a !in drop && qualifies(a) ==> forall b :: b in peers && b != a ==> b in drop
  }

  /** The records of the named keys, and no others, say that they come from the configuration. */
  ghost predicate ConfigNoted(before: map<bytes, Meta>, after: map<bytes, Meta>, named: set<bytes>)
  {
    && after.Keys == before.Keys + named
    && (forall k :: k in named ==> after[k].source == Config)
    && (forall k :: k in before && k in named ==> after[k] == before[k].(source := Config))
    && (forall k :: k in before && k !in named ==> after[k] == before[k])
  }

  datatype Departure = Departure(nodeID: bytes, advertise: bytes)

  /** Everything that changes the peer list without an operator asking for a removal. */
  datatype Call =
    | Add(addr: bytes, source: Source, now: int, dials: bool)
    | NoteConfig(addrs: seq<bytes>, now: int)
    | Reachable(addr: bytes, now: int)
    | Unreachable(after: int, now: int, connected: set<bytes>)
    | Missing(listed: seq<bytes>, connected: set<bytes>)
    | Leave(message: Option<Departure>, connAddr: bytes, connected: set<bytes>)

  class PeerBook {
    const canon: bytes -> bytes
    const acceptable: bytes -> bool
    const advertise: bytes
    const nodeID: bytes

    var peers: seq<bytes>
    var meta: map<bytes, Meta>

    constructor (canon: bytes -> bytes, acceptable: bytes -> bool, advertise: bytes, nodeID: bytes,
                 configured: seq<bytes>)
      requires Distinct(canon, configured)
      ensures Valid() && peers == configured && meta == map[]
      ensures this.canon == canon && this.acceptable == acceptable
      ensures this.advertise == advertise && this.nodeID == nodeID
    {
      this.canon, this.acceptable, this.advertise, this.nodeID := canon, acceptable, advertise, nodeID;
      peers, meta := configured, map[];
    }

    ghost predicate Valid()
      reads this
    {
      Distinct(canon, peers) && forall k :: k in meta ==> Key(meta[k].addr) == k
    }

    function Key(a: bytes): bytes { Norm(canon, a) }

    /** Peers no automatic removal may touch: configured, added by hand, or of unknown origin. */
    predicate Protected(a: bytes)
      reads this
    {
      Key(a) in meta ==> !Forgettable(meta[Key(a)].source)
    }

    /** The two things every automatic operation keeps: protected peers stay, protected, and a
        list with peers in it never becomes empty. */
    twostate predicate KeepsFaith()
      reads this
    {
      && (forall a :: a in old(peers) && old(Protected(a)) ==> a in peers && Protected(a))
      && (old(peers) != [] ==> peers != [])
    }

    function IsSelf(id: bytes, addr: bytes): bool
    {
      || (id != [] && id == nodeID)
      || (advertise != [] && addr != [] && Key(advertise) == Key(addr))
    }

    /** The record an address has after being heard of once more: the stronger claim wins. */
    function Recorded(m: map<bytes, Meta>, addr: bytes, src: Source, now: int): Meta
    {
      if Key(addr) !in m then Meta(addr, src, now, 0)
      else if Forgettable(src) then m[Key(addr)]
      else m[Key(addr)].(source := src)
    }

    method RecordPeerMeta(addr: bytes, src: Source, now: int)
      requires Valid()
      modifies this`meta
      ensures Valid()
      ensures meta == old(meta)[Key(addr) := Recorded(old(meta), addr, src, now)]
    {
      var key := Key(addr);
      if key in meta {
        if !Forgettable(src) {
          meta := meta[key := meta[key].(source := src)];
        }
        return;
      }
      meta := meta[key := Meta(addr, src, now, 0)];
    }

    method MarkPeerReachable(addr: bytes, now: int)
      requires Valid()
      modifies this`meta
      ensures Valid() && KeepsFaith()
      ensures meta == if Key(addr) in old(meta)
                      then old(meta)[Key(addr) := old(meta)[Key(addr)].(lastOK := now)] else old(meta)
    {
      var key := Key(addr);
      if key in meta {
        meta := meta[key := meta[key].(lastOK := now)];
      }
    }

    /** The address is usable, not this node, and not listed in any spelling. */
    ghost predicate Addable(a: bytes)
      reads this
    {
      acceptable(a) && !IsSelf([], a) && forall p :: p in peers ==> Key(p) != Key(a)
    }

    /** Adds an address unless it is unusable, this node itself, or already known. The call then
        also fails if the dial loop could not be started (`dials`), but the address stays. */
    method AddPeerFrom(raw: bytes, src: Source, now: int, dials: bool) returns (added: bool, ok: bool)
      requires Valid()
      modifies this
      ensures Valid() && KeepsFaith()
      ensures added <==> old(Addable(TrimSpace(raw)))
      ensures added ==> var a := TrimSpace(raw);
                peers == old(peers) + [a] && meta == old(meta)[Key(a) := Recorded(old(meta), a, src, now)]
      ensures !added ==> peers == old(peers) && meta == old(meta)
      ensures ok <==> added && dials
    {
      var addr := TrimSpace(raw);
      if !acceptable(addr) { return false, false; }
      if IsSelf([], addr) { return false, false; }
      var want := Key(addr);
      for i := 0 to |peers|
        invariant forall j :: 0 <= j < i ==> Key(peers[j]) != want
        invariant peers == old(peers) && meta == old(meta)
      {
        if peers[i] == addr || Key(peers[i]) == want { return false, false; }
      }
      peers := peers + [addr];
      RecordPeerMeta(addr, src, now);
      added, ok := true, dials;
    }

    /** Removes an address written exactly so. */
    method RemovePeer(raw: bytes)
      requires Valid()
      modifies this`peers
      ensures Valid()
      ensures forall p :: p in peers <==> p in old(peers) && p != TrimSpace(raw)
    {
      var addr := TrimSpace(raw);
      ghost var before := peers;
      var left: seq<bytes> := [];
      for i := 0 to |peers|
        invariant peers == before
        invariant forall p :: p in left <==> p in before[..i] && p != addr
        invariant Distinct(canon, left)
      {
        assert before[..i + 1] == before[..i] + [before[i]];
        if peers[i] != addr {
          forall j | 0 <= j < |left| ensures Key(left[j]) != Key(before[i]) {
            assert left[j] in before[..i];
          }
          left := left + [peers[i]];
        }
      }
      assert before[..|before|] == before;
      peers := left;
    }

    /** Deletes the record of an address that may be forgotten and is wanted gone. */
    method Consider(addr: bytes, want: (Meta, bool) -> bool, connected: set<bytes>) returns (gone: bool)
      modifies this`meta
      ensures gone <==> Candidate(Q(old(meta), want, connected), addr)
      ensures meta == if gone then old(meta) - {Key(addr)} else old(meta)
    {
      var key := Key(addr);
      if key !in meta { return false; }
      if !Forgettable(meta[key].source) { return false; }
      if !want(meta[key], key in connected) { return false; }
      meta := meta - {key};
      gone := true;
    }

    /** Picks what to forget, in list order, always leaving one peer. */
    method ForgetCandidates(want: (Meta, bool) -> bool, connected: set<bytes>) returns (drop: seq<bytes>)
      requires Valid()
      modifies this`meta
      ensures Valid()
      ensures drop == Picked(Q(old(meta), want, connected), peers, |peers|)
      ensures meta == old(meta) - KeysOf(canon, drop)
    {
      hide KeysOf, Picked, Forgettable, Norm;
      ghost var q := Q(meta, want, connected);
      drop := [];
      assert meta - KeysOf(canon, drop) == meta by { NoKeys(canon); }
      assert peers[0..] == peers;
      var remaining: nat := |peers|;
      var i := 0;
      while i < |peers| && remaining > 1
        invariant 0 <= i <= |peers|
        invariant drop + Picked(q, peers[i..], remaining) == Picked(q, peers, |peers|)
        invariant forall a :: a in drop ==> a in peers[..i]
        invariant meta == q.meta - KeysOf(canon, drop)
      {
        drop, remaining := Visit(q, want, connected, i, drop, remaining);
        i := i + 1;
      }
      PickedEnd(q, peers[i..], remaining);
    }

    /** One peer of that walk. */
    method Visit(ghost q: Query, want: (Meta, bool) -> bool, connected: set<bytes>, i: nat,
                 drop: seq<bytes>, remaining: nat) returns (after: seq<bytes>, left: nat)
      requires Valid() && i < |peers| && remaining > 1 && q == Q(q.meta, want, connected)
      requires forall a :: a in drop ==> a in peers[..i]
      requires meta == q.meta - KeysOf(canon, drop)
      modifies this`meta
      ensures meta == q.meta - KeysOf(canon, after)
      ensures forall a :: a in after ==> a in peers[..i + 1]
      ensures after + Picked(q, peers[i + 1..], left) == drop + Picked(q, peers[i..], remaining)
    {
      hide KeysOf, Picked, Forgettable, Norm;
      var addr := peers[i];
      PickedStep(q, peers, i, remaining);
      NewKey(canon, peers, i, drop);
      KeysOfSnoc(canon, drop, addr);
      assert peers[..i + 1] == peers[..i] + [addr];
      var gone := Consider(addr, want, connected);
      after, left := drop, remaining;
      if gone { after, left := drop + [addr], remaining - 1; }
    }

    ghost function Q(m: map<bytes, Meta>, want: (Meta, bool) -> bool, connected: set<bytes>): Query
    {
      Query(canon, m, want, connected)
    }

    /** The shape all automatic removals share: pick candidates, then take them off the list.
        An address stored with blanks around it loses its record but stays on the list. */
    method Forget(want: (Meta, bool) -> bool, connected: set<bytes>) returns (drop: seq<bytes>)
      requires Valid()
      modifies this
      ensures Valid() && KeepsFaith()
      ensures forall p :: p in peers <==> p in old(peers) && !(p in drop && TrimSpace(p) == p)
      ensures forall a :: a in drop ==> a in old(peers) && Candidate(Q(old(meta), want, connected), a)
      ensures forall a :: a in old(peers) && a !in drop && Candidate(Q(old(meta), want, connected), a) ==>
                forall b :: b in old(peers) && b != a ==> b in drop
    {
      drop := ForgetCandidates(want, connected);
      PickedFairly(Q(old(meta), want, connected), peers);
      ghost var list := peers;
      for i := 0 to |drop|
        invariant Valid() && meta == old(meta) - KeysOf(canon, drop)
        invariant forall p :: p in peers <==> p in list && !(p in drop[..i] && TrimSpace(p) == p)
      {
        assert drop[..i + 1] == drop[..i] + [drop[i]];
        assert drop[i] in list;
        forall p | p in list && p == TrimSpace(drop[i]) ensures p == drop[i] {
          TrimTwice(drop[i]);
          SamePeer(canon, list, p, drop[i]);
        }
        RemovePeer(drop[i]);
      }
      assert drop[..|drop|] == drop;
    }

    /** Operator intent: the address is exempt from removal afterwards, unless it was already
        listed as a forgettable one, which the refused call leaves as it was. */
    method AddPeer(raw: bytes, now: int, dials: bool) returns (added: bool, ok: bool)
      requires Valid()
      modifies this
      ensures Valid() && KeepsFaith()
      ensures Protected(TrimSpace(raw)) <==> old(Addable(TrimSpace(raw))) || old(Protected(TrimSpace(raw)))
      ensures added <==> old(Addable(TrimSpace(raw)))
      ensures added ==> var a := TrimSpace(raw);
                peers == old(peers) + [a] && meta == old(meta)[Key(a) := Recorded(old(meta), a, Manual, now)]
      ensures !added ==> peers == old(peers) && meta == old(meta)
      ensures ok <==> added && dials
    {
      added, ok := AddPeerFrom(raw, Manual, now, dials);
    }

    /** The keys that a list of configured addresses names; blank ones name none. */
    ghost function Named(addrs: seq<bytes>): set<bytes>
    {
      set i | 0 <= i < |addrs| && TrimSpace(addrs[i]) != [] :: Key(TrimSpace(addrs[i]))
    }

    /** Exactly the configured addresses are recorded as such, and so become exempt. */
    method NoteConfigPeers(addrs: seq<bytes>, now: int)
      requires Valid()
      modifies this`meta
      ensures Valid() && KeepsFaith()
      ensures forall a :: a in addrs && TrimSpace(a) != [] ==> Protected(a)
      ensures ConfigNoted(old(meta), meta, Named(addrs))
      ensures forall a :: old(Protected(a)) ==> Protected(a)
    {
      NoteAll(addrs, now);
      forall a | a in addrs && TrimSpace(a) != [] ensures Key(a) in Named(addrs) {
        var i :| 0 <= i < |addrs| && addrs[i] == a;
        TrimTwice(a);
        assert Key(TrimSpace(addrs[i])) in Named(addrs);
      }
    }

    method NoteAll(addrs: seq<bytes>, now: int)
      requires Valid()
      modifies this`meta
      ensures Valid() && ConfigNoted(old(meta), meta, Named(addrs))
    {
      hide Named, ConfigNoted, Norm;
      assert Named([]) == {} && ConfigNoted(meta, meta, {}) by { NothingNoted(meta); }
      for i := 0 to |addrs|
        invariant Valid() && ConfigNoted(old(meta), meta, Named(addrs[..i]))
      {
        NamedSnoc(addrs, i);
        var a := TrimSpace(addrs[i]);
        if a != [] {
          NotedOne(old(meta), meta, Named(addrs[..i]), a, now);
          RecordPeerMeta(a, Config, now);
        }
      }
      assert addrs[..|addrs|] == addrs;
    }

    lemma NothingNoted(m: map<bytes, Meta>)
      ensures Named([]) == {} && ConfigNoted(m, m, {})
    {
    }

    lemma NotedOne(m: map<bytes, Meta>, n: map<bytes, Meta>, named: set<bytes>, a: bytes, now: int)
      requires ConfigNoted(m, n, named)
      ensures ConfigNoted(m, n[Key(a) := Recorded(n, a, Config, now)], named + {Key(a)})
    {
      hide Norm;
    }

    lemma NamedSnoc(addrs: seq<bytes>, i: nat)
      requires i < |addrs|
      ensures Named(addrs[..i + 1]) == if TrimSpace(addrs[i]) == [] then Named(addrs[..i])
                                       else Named(addrs[..i]) + {Key(TrimSpace(addrs[i]))}
    {
      var before, now := addrs[..i], addrs[..i + 1];
      forall k | k in Named(now) ensures k in Named(before) || k == Key(TrimSpace(addrs[i])) {
        var j :| 0 <= j < |now| && TrimSpace(now[j]) != [] && Key(TrimSpace(now[j])) == k;
        if j < i { assert before[j] == now[j]; }
      }
      forall k | k in Named(before) ensures k in Named(now) {
        var j :| 0 <= j < |before| && TrimSpace(before[j]) != [] && Key(TrimSpace(before[j])) == k;
        assert now[j] == before[j];
      }
      assert now[i] == addrs[i];
    }

    static function LastSeen(m: Meta): int { if m.lastOK == 0 then m.added else m.lastOK }

    method ForgetUnreachablePeers(after: int, now: int, connected: set<bytes>) returns (drop: seq<bytes>)
      requires Valid()
      modifies this
      ensures Valid() && KeepsFaith()
      ensures after <= 0 ==> drop == [] && peers == old(peers) && meta == old(meta)
      ensures forall a :: a in drop ==> Key(a) in old(meta) && Key(a) !in connected
                                        && LastSeen(old(meta)[Key(a)]) < now - after
      ensures after > 0 ==> AllButOne(old(peers), drop, a =>
                Key(a) in old(meta) && Forgettable(old(meta)[Key(a)].source) && Key(a) !in connected
                && LastSeen(old(meta)[Key(a)]) < now - after)
      ensures forall p :: p in peers <==> p in old(peers) && !(p in drop && TrimSpace(p) == p)
    {
      if after <= 0 { return []; }
      var cutoff := now - after;
      drop := Forget((m, live) => !live && LastSeen(m) < cutoff, connected);
    }

    method ForgetPeersMissingFrom(listed: seq<bytes>, connected: set<bytes>) returns (drop: seq<bytes>)
      requires Valid()
      modifies this
      ensures Valid() && KeepsFaith()
      ensures forall a :: a in drop ==> Key(a) in old(meta) && old(meta)[Key(a)].source == Discovery
                                        && Key(a) !in connected
      ensures forall a, l :: a in drop && l in listed && TrimSpace(l) != [] ==> Key(a) != Key(l)
      ensures AllButOne(old(peers), drop, a =>
                Key(a) in old(meta) && old(meta)[Key(a)].source == Discovery && Key(a) !in connected
                && forall l :: l in listed && TrimSpace(l) != [] ==> Key(a) != Key(l))
      ensures forall p :: p in peers <==> p in old(peers) && !(p in drop && TrimSpace(p) == p)
    {
      var present: set<bytes> := {};
      for i := 0 to |listed|
        invariant forall k :: k in present <==> exists j :: 0 <= j < i && TrimSpace(listed[j]) != [] && Key(listed[j]) == k
        invariant peers == old(peers) && meta == old(meta)
      {
        var a := TrimSpace(listed[i]);
        TrimTwice(listed[i]);
        if a != [] { present := present + {Key(a)}; }
      }
      var c, p := canon, present;
      drop := Forget((m: Meta, live) => !live && m.source == Discovery && Norm(c, m.addr) !in p, connected);
    }

    method HandleLeave(message: Option<Departure>, connAddr: bytes, connected: set<bytes>) returns (drop: seq<bytes>)
      requires Valid()
      modifies this
      ensures Valid() && KeepsFaith()
      ensures message == None ==> drop == [] && peers == old(peers) && meta == old(meta)
      ensures message.Some? ==>
                var adv := TrimSpace(message.value.advertise);
                var addr := if adv == [] then TrimSpace(connAddr) else adv;
                addr == [] || IsSelf(TrimSpace(message.value.nodeID), addr) ==>
                drop == [] && peers == old(peers) && meta == old(meta)
      ensures forall a :: a in drop ==> message.Some? && var adv := TrimSpace(message.value.advertise);
                Key(a) == Key(if adv == [] then connAddr else adv)
      ensures message.Some? ==>
                var adv := TrimSpace(message.value.advertise);
                var addr := if adv == [] then TrimSpace(connAddr) else adv;
                addr != [] && !IsSelf(TrimSpace(message.value.nodeID), addr) ==>
                AllButOne(old(peers), drop, a =>
                  Key(a) in old(meta) && Forgettable(old(meta)[Key(a)].source) && Key(a) == Key(addr))
      ensures forall p :: p in peers <==> p in old(peers) && !(p in drop && TrimSpace(p) == p)
    {
      if message == None { return []; }
      var addr := TrimSpace(message.value.advertise);
      if addr == [] {
        addr := TrimSpace(connAddr);
        TrimTwice(connAddr);
      }
      if addr == [] || IsSelf(TrimSpace(message.value.nodeID), addr) { return []; }
      var c, want := canon, Key(addr);
      drop := Forget((m: Meta, live) => Norm(c, m.addr) == want, connected);
    }

    /** Whole runs of automatic calls keep distinctness, every protected peer, and a non-empty
        list non-empty. */
    method Run(calls: seq<Call>)
      requires Valid()
      modifies this
      ensures Valid() && KeepsFaith()
    {
      for i := 0 to |calls|
        invariant Valid() && KeepsFaith()
      {
        match calls[i] {
          case Add(a, src, now, dials) => var _, _ := AddPeerFrom(a, src, now, dials);
          case NoteConfig(addrs, now) => NoteConfigPeers(addrs, now);
          case Reachable(a, now) => MarkPeerReachable(a, now);
          case Unreachable(after, now, connected) => var _ := ForgetUnreachablePeers(after, now, connected);
          case Missing(listed, connected) => var _ := ForgetPeersMissingFrom(listed, connected);
          case Leave(message, connAddr, connected) => var _ := HandleLeave(message, connAddr, connected);
        }
      }
    }
  }

  /** The run in which adding a peer by hand does not protect it: the address was learned before. */
  method ManualAddIgnored(canon: bytes -> bytes, raw: bytes, now: int, later: int) returns (b: PeerBook)
    ensures fresh(b) && b.Valid() && TrimSpace(raw) in b.peers && !b.Protected(TrimSpace(raw))
  {
    b := new PeerBook(canon, _ => true, [], [], []);
    var learned, _ := b.AddPeerFrom(raw, Learned, now, true);
    var added, _ := b.AddPeer(raw, later, true);
  }
}
