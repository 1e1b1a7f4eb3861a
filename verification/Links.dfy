/** Which link carries replication to each remote node. */
module Links {
  import opened Bytes

  /** One authenticated link. `linkSeq` is its registration number and its identity. */
  datatype Link = Link(addr: bytes, remoteID: bytes, inbound: bool, linkSeq: nat, hasQueue: bool)

  const ADDR_PREFIX: bytes := [97, 100, 100, 114, 58] // "addr:"

  /** Who a link reaches: the peer's identity, or its address when it never sent one. */
  function NodeKey(l: Link): bytes
  {
    if l.remoteID == [] then ADDR_PREFIX + l.addr else l.remoteID
  }

  /** Whether `a` carries replication rather than `b`: a dial beats an accepted connection,
      and between two of a kind the older registration wins. */
  predicate PreferLink(a: Link, b: Link)
  {
    if a.inbound != b.inbound then !a.inbound else a.linkSeq < b.linkSeq
  }

  predicate Live(l: Link, stopped: set<nat>) { l.hasQueue && l.linkSeq !in stopped }

  /** Registration numbers are handed out once. */
  predicate DistinctSeqs(out: seq<Link>)
  {
    forall i, j :: 0 <= i < j < |out| ==> out[i].linkSeq != out[j].linkSeq
  }

  /** The link that is preferred to every other live link to the same node. */
  ghost predicate IsChosen(out: seq<Link>, stopped: set<nat>, l: Link)
  {
    && l in out && Live(l, stopped)
    && forall m :: m in out && Live(m, stopped) && NodeKey(m) == NodeKey(l) && m != l ==> PreferLink(l, m)
  }

  /** The delivery links, as a property of the membership alone. */
  ghost function Selection(out: seq<Link>, stopped: set<nat>): set<Link>
  {
    set l | l in out && IsChosen(out, stopped, l)
  }

  /** The two tables of the pass over the links: the best link of each node met so far, and
      the nodes in the order they were first met. */
  ghost predicate Leaders(seen: seq<Link>, stopped: set<nat>, best: map<bytes, Link>, order: seq<bytes>)
  {
    && (forall a, b :: 0 <= a < b < |order| ==> order[a] != order[b])
    && (forall k :: k in order <==> k in best)
    && (forall k :: k in best ==> NodeKey(best[k]) == k && IsChosen(seen, stopped, best[k]))
    && (forall l :: l in seen && Live(l, stopped) ==> NodeKey(l) in best)
  }

  /** A link that is down, or not better than its node's best, changes nothing. */
  lemma LeadersKept(seen: seq<Link>, l: Link, stopped: set<nat>, best: map<bytes, Link>, order: seq<bytes>)
    requires Leaders(seen, stopped, best, order) && DistinctSeqs(seen + [l])
    requires Live(l, stopped) ==> NodeKey(l) in best && !PreferLink(l, best[NodeKey(l)])
    ensures Leaders(seen + [l], stopped, best, order)
  {
    hide NodeKey;
    ChosenSnoc(seen, l, stopped);
    NewSeq(seen, l);
  }

  lemma LeadersNew(seen: seq<Link>, l: Link, stopped: set<nat>, best: map<bytes, Link>, order: seq<bytes>)
    requires Leaders(seen, stopped, best, order) && DistinctSeqs(seen + [l])
    requires Live(l, stopped) && NodeKey(l) !in best
    ensures Leaders(seen + [l], stopped, best[NodeKey(l) := l], order + [NodeKey(l)])
  {
    hide NodeKey, PreferLink;
    ChosenSnoc(seen, l, stopped);
    var key, best', order' := NodeKey(l), best[NodeKey(l) := l], order + [NodeKey(l)];
    forall k | k in best' ensures NodeKey(best'[k]) == k && IsChosen(seen + [l], stopped, best'[k]) {
      if k != key { assert IsChosen(seen, stopped, best[k]); }
    }
    forall k ensures k in order' <==> k in best' { }
  }

  lemma LeadersBetter(seen: seq<Link>, l: Link, stopped: set<nat>, best: map<bytes, Link>, order: seq<bytes>)
    requires Leaders(seen, stopped, best, order) && DistinctSeqs(seen + [l])
    requires Live(l, stopped) && NodeKey(l) in best && PreferLink(l, best[NodeKey(l)])
    ensures Leaders(seen + [l], stopped, best[NodeKey(l) := l], order)
  {
    hide NodeKey, PreferLink;
    ChosenSnoc(seen, l, stopped);
    var key, best' := NodeKey(l), best[NodeKey(l) := l];
    assert IsChosen(seen, stopped, best[key]);
    forall k | k in best' ensures NodeKey(best'[k]) == k && IsChosen(seen + [l], stopped, best'[k]) {
      if k != key { assert IsChosen(seen, stopped, best[k]); }
    }
  }

  lemma NewSeq(seen: seq<Link>, l: Link)
    requires DistinctSeqs(seen + [l])
    ensures forall m :: m in seen ==> m.linkSeq != l.linkSeq
  {
    forall m | m in seen ensures m.linkSeq != l.linkSeq {
      var i :| 0 <= i < |seen| && seen[i] == m;
      assert (seen + [l])[i] == m && (seen + [l])[|seen|] == l;
    }
  }

  /** The pass over the links. */
  method FindLeaders(out: seq<Link>, stopped: set<nat>) returns (best: map<bytes, Link>, order: seq<bytes>)
    requires DistinctSeqs(out)
    ensures Leaders(out, stopped, best, order)
  {
    best, order := map[], [];
    assert Leaders(out[..0], stopped, best, order);
    hide Leaders;
    for i := 0 to |out|
      invariant Leaders(out[..i], stopped, best, order)
    {
      var l := out[i];
      assert out[..i + 1] == out[..i] + [l];
      if !Live(l, stopped) {
        LeadersKept(out[..i], l, stopped, best, order);
        continue;
      }
      var key := NodeKey(l);
      if key !in best {
        LeadersNew(out[..i], l, stopped, best, order);
        best := best[key := l];
        order := order + [key];
      } else if PreferLink(l, best[key]) {
        LeadersBetter(out[..i], l, stopped, best, order);
        best := best[key := l];
      } else {
        LeadersKept(out[..i], l, stopped, best, order);
      }
    }
    assert out[..|out|] == out;
  }

  /** Exactly one delivery link per node: distinct nodes, every live node covered, and each
      link the preferred one of its node. */
  method ComputeReplicationTargets(out: seq<Link>, stopped: set<nat>) returns (targets: seq<Link>)
    requires DistinctSeqs(out)
    ensures forall i, j :: 0 <= i < j < |targets| ==> NodeKey(targets[i]) != NodeKey(targets[j])
    ensures forall l :: l in targets <==> l in Selection(out, stopped)
    ensures forall l :: l in out && Live(l, stopped) ==> exists t :: t in targets && NodeKey(t) == NodeKey(l)
  {
    var best, order := FindLeaders(out, stopped);
    targets := [];
    for i := 0 to |order|
      invariant |targets| == i
      invariant forall j :: 0 <= j < i ==> targets[j] == best[order[j]]
    {
      targets := targets + [best[order[i]]];
    }
    forall l | l in out && Live(l, stopped) ensures best[NodeKey(l)] in targets {
      var i :| 0 <= i < |order| && order[i] == NodeKey(l);
      assert targets[i] == best[NodeKey(l)];
    }
    forall l | l in Selection(out, stopped) ensures l in targets {
      ChosenUnique(out, stopped, l, best[NodeKey(l)]);
    }
  }

  /** How one more link changes who is chosen. */
  lemma ChosenSnoc(out: seq<Link>, l: Link, stopped: set<nat>)
    requires DistinctSeqs(out + [l])
    ensures forall m :: IsChosen(out, stopped, m) ==>
              (IsChosen(out + [l], stopped, m) <==>
               !Live(l, stopped) || NodeKey(l) != NodeKey(m) || PreferLink(m, l))
    ensures Live(l, stopped) && (forall m :: m in out && Live(m, stopped) ==> NodeKey(m) != NodeKey(l)) ==>
              IsChosen(out + [l], stopped, l)
    ensures forall m ::
              Live(l, stopped) && IsChosen(out, stopped, m) && NodeKey(m) == NodeKey(l) && PreferLink(l, m) ==>
              IsChosen(out + [l], stopped, l)
    ensures forall m :: m in out ==> m != l
  {
    forall m | m in out ensures m != l && m.linkSeq != l.linkSeq {
      var i :| 0 <= i < |out| && out[i] == m;
      assert (out + [l])[i] == m && (out + [l])[|out|] == l;
    }
    forall m | IsChosen(out, stopped, m) && NodeKey(m) == NodeKey(l) && PreferLink(l, m) && Live(l, stopped)
      ensures IsChosen(out + [l], stopped, l)
    {
      forall x | x in out + [l] && Live(x, stopped) && NodeKey(x) == NodeKey(l) && x != l ensures PreferLink(l, x) {
        assert x in out;
        assert x == m || PreferLink(m, x);
      }
    }
    forall m | IsChosen(out, stopped, m)
      ensures IsChosen(out + [l], stopped, m) <==>
              !Live(l, stopped) || NodeKey(l) != NodeKey(m) || PreferLink(m, l)
    {
      assert l in out + [l] && m in out + [l];
    }
  }

  /** Each node has at most one chosen link. */
  lemma ChosenUnique(out: seq<Link>, stopped: set<nat>, a: Link, b: Link)
    requires IsChosen(out, stopped, a) && IsChosen(out, stopped, b) && NodeKey(a) == NodeKey(b)
    ensures a == b
  {
  }

  /** The selection depends on which links there are, not on the order they are listed in. */
  lemma SelectionOrderFree(out: seq<Link>, other: seq<Link>, stopped: set<nat>)
    requires forall l :: l in out <==> l in other
    ensures Selection(out, stopped) == Selection(other, stopped)
  {
    forall l ensures IsChosen(out, stopped, l) <==> IsChosen(other, stopped, l) {
    }
  }

  /** Losing the chosen link promotes another one to the same node, if there is one. */
  lemma FailoverPromotes(out: seq<Link>, stopped: set<nat>, gone: Link, spare: Link)
    requires DistinctSeqs(out) && spare in out && Live(spare, stopped)
    requires gone != spare && NodeKey(gone) == NodeKey(spare) && gone.linkSeq !in stopped
    requires gone in out
    ensures exists l :: l in Selection(out, stopped + {gone.linkSeq}) && NodeKey(l) == NodeKey(spare) && l != gone
  {
    var st := stopped + {gone.linkSeq};
    assert spare.linkSeq != gone.linkSeq by {
      var i :| 0 <= i < |out| && out[i] == spare;
      var j :| 0 <= j < |out| && out[j] == gone;
    }
    var l := BestOf(out, st, spare);
  }

  /** The minimum of a finite group exists. */
  lemma {:induction false} BestOf(out: seq<Link>, stopped: set<nat>, l: Link) returns (b: Link)
    requires DistinctSeqs(out) && l in out && Live(l, stopped)
    ensures IsChosen(out, stopped, b) && NodeKey(b) == NodeKey(l)
    decreases |out|
  {
    var n := |out| - 1;
    var front, last := out[..n], out[n];
    assert front + [last] == out;
    ChosenSnoc(front, last, stopped);
    if m :| m in front && Live(m, stopped) && NodeKey(m) == NodeKey(l) {
      b := BestOf(front, stopped, m);
      NewSeq(front, last);
      if Live(last, stopped) && NodeKey(last) == NodeKey(b) && !PreferLink(b, last) {
        b := last;
      }
    } else {
      b := last;
    }
  }

  /** The registered links, and the operations that change them. */
  class LinkTable {
    var out: seq<Link>
    var nextSeq: nat
    var targetsGen: nat

    constructor ()
      ensures Valid() && out == [] && targetsGen == 0
    {
      out, nextSeq, targetsGen := [], 1, 0;
    }

    ghost predicate Valid()
      reads this
    {
      DistinctSeqs(out) && forall l :: l in out ==> l.linkSeq < nextSeq
    }

    method RegisterOut(addr: bytes, remoteID: bytes, inbound: bool, hasQueue: bool) returns (l: Link)
      requires Valid()
      modifies this
      ensures Valid() && out == old(out) + [l] && targetsGen == old(targetsGen) + 1
      ensures l == Link(addr, remoteID, inbound, old(nextSeq), hasQueue)
    {
      l := Link(addr, remoteID, inbound, nextSeq, hasQueue);
      nextSeq := nextSeq + 1;
      out := out + [l];
      targetsGen := targetsGen + 1;
    }

    /** Removes the dialed links to `addr`; accepted ones stay even at the same address. */
    method UnregisterOut(addr: bytes)
      requires Valid()
      modifies this
      ensures Valid() && targetsGen == old(targetsGen) + 1
      ensures forall l :: l in out <==> l in old(out) && (l.inbound || l.addr != addr)
    {
      out := Keep(out, (l: Link) => l.inbound || l.addr != addr);
      targetsGen := targetsGen + 1;
    }

    /** Removes one specific link. */
    method UnregisterLink(target: Link)
      requires Valid()
      modifies this
      ensures Valid() && targetsGen == old(targetsGen) + 1
      ensures forall l :: l in out <==> l in old(out) && l != target
    {
      out := Keep(out, (l: Link) => l != target);
      targetsGen := targetsGen + 1;
    }
  }

  /** The in-place filter of the two removals. */
  method Keep(out: seq<Link>, p: Link -> bool) returns (dst: seq<Link>)
    ensures forall l :: l in dst <==> l in out && p(l)
    ensures DistinctSeqs(out) ==> DistinctSeqs(dst)
  {
    dst := [];
    for i := 0 to |out|
      invariant forall l :: l in dst <==> l in out[..i] && p(l)
      invariant DistinctSeqs(out) ==> DistinctSeqs(dst)
    {
      assert out[..i + 1] == out[..i] + [out[i]];
      if p(out[i]) {
        forall j | 0 <= j < |dst| && DistinctSeqs(out) ensures dst[j].linkSeq != out[i].linkSeq {
          assert dst[j] in out[..i];
        }
        dst := dst + [out[i]];
      }
    }
    assert out[..|out|] == out;
  }
}
