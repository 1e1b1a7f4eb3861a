/** The size the store books for an entry, and sums of sizes. */
module Memory {
  import opened Bytes
  import opened Lists
  import opened Keyspace

  /** The fixed cost of an entry: 64 bytes for the record and 64 for its place in the map. */
  const OVERHEAD: int := 128

  /** Lists are booked by length, not by content. */
  const PER_ELEMENT: int := 32

  ghost function Sum(m: map<bytes, nat>): nat
    decreases |m|
  {
    if m == map[] then 0
    else
      var k :| k in m;
      assert |m - {k}| < |m| by { Smaller(m, k); }
      m[k] + Sum(m - {k})
  }

  lemma Smaller<V>(m: map<bytes, V>, k: bytes)
    requires k in m
    ensures |m - {k}| == |m| - 1
  {
    assert (m - {k}).Keys == m.Keys - {k};
    assert |(m - {k}).Keys| == |m - {k}| && |m.Keys| == |m|;
  }

  /** A sum does not depend on the order of its terms. */
  lemma {:induction false} SumRemove(m: map<bytes, nat>, k: bytes)
    requires k in m
    ensures Sum(m) == m[k] + Sum(m - {k})
    decreases |m|
  {
    var j :| j in m && Sum(m) == m[j] + Sum(m - {j});
    if j != k {
      Smaller(m, j);
      Smaller(m, k);
      SumRemove(m - {j}, k);
      SumRemove(m - {k}, j);
      assert m - {j} - {k} == m - {k} - {j};
    }
  }

  lemma SumPut(m: map<bytes, nat>, k: bytes, n: nat)
    ensures Sum(m[k := n]) == Sum(m - {k}) + n
  {
    SumRemove(m[k := n], k);
    assert m[k := n] - {k} == m - {k};
  }

  lemma SumDrop(m: map<bytes, nat>, k: bytes)
    ensures Sum(m) == Sum(m - {k}) + if k in m then m[k] else 0
  {
    if k in m { SumRemove(m, k); } else { assert m - {k} == m; }
  }

  ghost function FieldSizes(h: map<bytes, bytes>): map<bytes, nat> { map f | f in h :: |f| + |h[f]| }

  ghost function MemberSizes(s: set<bytes>): map<bytes, nat> { map m | m in s :: |m| }

  /** The bytes booked for a value under a key. */
  ghost function Footprint(key: bytes, v: Value): nat
  {
    OVERHEAD + |key| +
    match v
    case Str(b) => |b|
    case Hash(h) => Sum(FieldSizes(h))
    case List(l) => PER_ELEMENT * |l|
    case Set(s) => Sum(MemberSizes(s))
  }

  method EstimateMem(key: bytes, v: Value) returns (n: int)
    ensures n == Footprint(key, v)
  {
    n := OVERHEAD + |key|;
    match v {
      case Str(b) => n := n + |b|;
      case Hash(h) =>
        var t := EstimateFields(h);
        n := n + t;
      case List(l) => n := n + |l| * PER_ELEMENT;
      case Set(s) =>
        var t := EstimateMembers(s);
        n := n + t;
    }
  }

  method EstimateFields(h: map<bytes, bytes>) returns (n: int)
    ensures n == Sum(FieldSizes(h))
  {
    n := 0;
    var todo := h;
    while |todo| > 0
      invariant n + Sum(FieldSizes(todo)) == Sum(FieldSizes(h))
      decreases |todo|
    {
      var f :| f in todo;
      SumRemove(FieldSizes(todo), f);
      assert FieldSizes(todo) - {f} == FieldSizes(todo - {f});
      Smaller(todo, f);
      n := n + |f| + |todo[f]|;
      todo := todo - {f};
    }
    assert todo == map[];
    assert FieldSizes(todo) == map[];
  }

  method EstimateMembers(s: set<bytes>) returns (n: int)
    ensures n == Sum(MemberSizes(s))
  {
    n := 0;
    var todo := s;
    while todo != {}
      invariant n + Sum(MemberSizes(todo)) == Sum(MemberSizes(s))
    {
      var m :| m in todo;
      SumRemove(MemberSizes(todo), m);
      assert MemberSizes(todo) - {m} == MemberSizes(todo - {m});
      n := n + |m|;
      todo := todo - {m};
    }
    assert MemberSizes(todo) == map[];
  }
}
