/** One recency list with its index: the nodes of a doubly linked list from most to least
    recently used, and the map from keys to nodes that goes with it. Nodes are told apart by
    identity, not by key. */
module Lru {
  import opened Bytes

  datatype Node = Node(id: nat, key: bytes)

  datatype Index = Index(nodes: seq<Node>, elems: map<bytes, nat>)

  const EMPTY: Index := Index([], map[])

  ghost predicate DistinctIds(nodes: seq<Node>)
  {
    forall i, j :: 0 <= i < j < |nodes| ==> nodes[i].id != nodes[j].id
  }

  /** Nodes and index map agree one to one, and no node is newer than `next`. */
  ghost predicate Linked(l: Index, next: nat)
  {
    && DistinctIds(l.nodes)
    && (forall n :: n in l.nodes ==> n.id < next && n.key in l.elems && l.elems[n.key] == n.id)
    && (forall k :: k in l.elems ==> Node(l.elems[k], k) in l.nodes)
  }

  /** The list is in order of last touch: every key before another was touched later. */
  ghost predicate Recent(l: Index, touched: map<bytes, nat>, clock: nat)
  {
    && (forall n :: n in l.nodes ==> n.key in touched && touched[n.key] < clock)
    && (forall i, j :: 0 <= i < j < |l.nodes| ==>
          l.nodes[i].key in touched && l.nodes[j].key in touched
          && touched[l.nodes[i].key] > touched[l.nodes[j].key])
  }

  /** Where the node sits; the list length if it is not there. */
  function Position(nodes: seq<Node>, id: nat): (p: nat)
    ensures p <= |nodes| && (p < |nodes| ==> nodes[p].id == id)
    ensures forall i :: 0 <= i < p ==> nodes[i].id != id
  {
    if nodes == [] || nodes[0].id == id then 0
    else
      var p := Position(nodes[1..], id) + 1;
      assert forall i :: 0 < i < p ==> nodes[i] == nodes[1..][i - 1];
      p
  }

  /** Unlinks the node with a given identity. */
  function Unlink(nodes: seq<Node>, id: nat): (r: seq<Node>)
    ensures Position(nodes, id) == |nodes| ==> r == nodes
    ensures Position(nodes, id) < |nodes| ==> |r| == |nodes| - 1
    ensures forall i :: 0 <= i < |r| ==> r[i] == nodes[if i < Position(nodes, id) then i else i + 1]
  {
    var p := Position(nodes, id);
    if p == |nodes| then nodes else nodes[..p] + nodes[p + 1..]
  }

  lemma UnlinkDistinct(nodes: seq<Node>, id: nat)
    requires DistinctIds(nodes)
    ensures DistinctIds(Unlink(nodes, id))
  {
  }

  lemma Unlinked(nodes: seq<Node>, id: nat, n: Node)
    requires DistinctIds(nodes)
    ensures n in Unlink(nodes, id) <==> n in nodes && n.id != id
  {
    var p, r := Position(nodes, id), Unlink(nodes, id);
    if n in r {
      var i :| 0 <= i < |r| && r[i] == n;
      assert nodes[if i < p then i else i + 1] == n;
    }
    if n in nodes && n.id != id {
      var i :| 0 <= i < |nodes| && nodes[i] == n;
      assert r[if i < p then i else i - 1] == n;
    }
  }

  lemma UnlinkMembers(nodes: seq<Node>, id: nat)
    requires DistinctIds(nodes)
    ensures DistinctIds(Unlink(nodes, id))
    ensures forall n :: n in Unlink(nodes, id) <==> n in nodes && n.id != id
  {
    UnlinkDistinct(nodes, id);
    forall n ensures n in Unlink(nodes, id) <==> n in nodes && n.id != id { Unlinked(nodes, id, n); }
  }

  /** `list.Remove` of the node, and deletion of the key from the index. */
  function Remove(l: Index, key: bytes, id: nat): Index
  {
    Index(Unlink(l.nodes, id), l.elems - {key})
  }

  function PushFront(l: Index, key: bytes, id: nat): Index
  {
    Index([Node(id, key)] + l.nodes, l.elems[key := id])
  }

  function MoveToFront(l: Index, id: nat): Index
  {
    var p := Position(l.nodes, id);
    if p == |l.nodes| then l else l.(nodes := [l.nodes[p]] + Unlink(l.nodes, id))
  }

  lemma RemoveLinked(l: Index, key: bytes, next: nat)
    requires Linked(l, next) && key in l.elems
    ensures Linked(Remove(l, key, l.elems[key]), next)
  {
    var id := l.elems[key];
    UnlinkMembers(l.nodes, id);
    var r := Remove(l, key, id);
    forall n | n in r.nodes ensures n.key in r.elems && r.elems[n.key] == n.id {
      assert n.key != key;
    }
    forall k | k in r.elems ensures Node(r.elems[k], k) in r.nodes {
      SameId(l, next, key, k);
    }
  }

  /** Different keys have different nodes. */
  lemma SameId(l: Index, next: nat, j: bytes, k: bytes)
    requires Linked(l, next) && j in l.elems && k in l.elems && j != k
    ensures l.elems[j] != l.elems[k]
  {
    assert Node(l.elems[j], j) in l.nodes && Node(l.elems[k], k) in l.nodes;
  }

  lemma RemoveRecent(l: Index, key: bytes, id: nat, touched: map<bytes, nat>, clock: nat)
    requires Recent(l, touched, clock)
    ensures Recent(Remove(l, key, id), touched, clock)
  {
    var r := Remove(l, key, id).nodes;
    forall n | n in r ensures n in l.nodes { }
  }

  lemma PushLinked(l: Index, key: bytes, next: nat)
    requires Linked(l, next) && key !in l.elems
    ensures Linked(PushFront(l, key, next), next + 1)
  {
    var r := PushFront(l, key, next);
    forall k | k in r.elems ensures Node(r.elems[k], k) in r.nodes {
      assert r.nodes[0] == Node(next, key);
      if k != key { assert Node(l.elems[k], k) in l.nodes; }
    }
  }

  /** A key touched now goes in front of everything touched before. */
  lemma PushRecent(l: Index, key: bytes, next: nat, touched: map<bytes, nat>, clock: nat)
    requires Linked(l, next) && Recent(l, touched, clock) && key !in l.elems
    ensures Recent(PushFront(l, key, next), touched[key := clock], clock + 1)
  {
    forall n | n in l.nodes ensures n.key != key { }
  }

  lemma MoveLinked(l: Index, key: bytes, next: nat)
    requires Linked(l, next) && key in l.elems
    ensures Linked(MoveToFront(l, l.elems[key]), next)
    ensures MoveToFront(l, l.elems[key]).nodes == [Node(l.elems[key], key)] + Unlink(l.nodes, l.elems[key])
  {
    var id := l.elems[key];
    var p := Position(l.nodes, id);
    assert p < |l.nodes| by { assert Node(id, key) in l.nodes; }
    assert l.nodes[p] == Node(id, key) by {
      if l.nodes[p].key != key { SameId(l, next, l.nodes[p].key, key); }
    }
    UnlinkMembers(l.nodes, id);
    var r := MoveToFront(l, id);
    assert r.nodes == [Node(id, key)] + Unlink(l.nodes, id);
    forall k | k in r.elems ensures Node(r.elems[k], k) in r.nodes {
      assert r.nodes[0] == Node(id, key);
      if k != key { SameId(l, next, key, k); }
    }
  }

  lemma OffList(l: Index, key: bytes, next: nat)
    requires Linked(l, next) && key !in l.elems
    ensures forall n :: n in l.nodes ==> n.key != key
  {
  }

  /** A node put in front with the present time as its last touch. */
  lemma FrontRecent(l: Index, n: Node, touched: map<bytes, nat>, clock: nat)
    requires Recent(l, touched, clock) && forall x :: x in l.nodes ==> x.key != n.key
    ensures Recent(Index([n] + l.nodes, l.elems), touched[n.key := clock], clock + 1)
    ensures forall e :: Recent(Index([n] + l.nodes, e), touched[n.key := clock], clock + 1)
  {
  }

  lemma MoveRecent(l: Index, key: bytes, next: nat, touched: map<bytes, nat>, clock: nat)
    requires Linked(l, next) && Recent(l, touched, clock) && key in l.elems
    ensures Recent(MoveToFront(l, l.elems[key]), touched[key := clock], clock + 1)
  {
    var id := l.elems[key];
    MoveLinked(l, key, next);
    RemoveLinked(l, key, next);
    RemoveRecent(l, key, id, touched, clock);
    hide Unlink, Position, MoveToFront, Linked;
    var rest := Remove(l, key, id);
    assert forall n :: n in rest.nodes ==> n.key != key by { OffList(rest, key, next); }
    FrontRecent(rest, Node(id, key), touched, clock);
  }

  lemma LinkedLater(l: Index, next: nat)
    requires Linked(l, next)
    ensures Linked(l, next + 1)
  {
  }

  lemma RecentLater(l: Index, touched: map<bytes, nat>, clock: nat)
    requires Recent(l, touched, clock)
    ensures Recent(l, touched, clock + 1)
  {
  }

  /** A touch of a key that is not on the list. */
  lemma RecentElsewhere(l: Index, key: bytes, next: nat, touched: map<bytes, nat>, clock: nat)
    requires Linked(l, next) && Recent(l, touched, clock) && key !in l.elems
    ensures Recent(l, touched[key := clock], clock + 1)
  {
    forall i | 0 <= i < |l.nodes| ensures l.nodes[i].key != key { assert l.nodes[i] in l.nodes; }
  }

  /** The index map knows the keys on the list. */
  lemma OnList(l: Index, next: nat, k: bytes)
    requires Linked(l, next)
    ensures k in l.elems <==> exists n :: n in l.nodes && n.key == k
  {
    if k in l.elems { assert Node(l.elems[k], k) in l.nodes; }
  }

  /** The least recently used key. */
  function Tail(l: Index): bytes
    requires l.nodes != []
  {
    l.nodes[|l.nodes| - 1].key
  }

  lemma TailIndexed(l: Index, next: nat)
    requires Linked(l, next) && l.nodes != []
    ensures Tail(l) in l.elems
  {
    assert l.nodes[|l.nodes| - 1] in l.nodes;
  }
}
