/** What the list commands do to the elements of one list, and the loops that do it. */
module Lists {
  import opened Bytes

  type items = seq<bytes>

  function Reverse(s: items): (r: items)
    ensures |r| == |s| && forall i :: 0 <= i < |s| ==> r[i] == s[|s| - 1 - i]
  {
    seq(|s|, i requires 0 <= i < |s| => s[|s| - 1 - i])
  }

  lemma ReverseSnoc(s: items, x: bytes)
    ensures Reverse(s + [x]) == [x] + Reverse(s)
  {
  }

  lemma ReverseFrom(l: items, p: nat)
    requires p < |l|
    ensures Reverse(l[p..]) == Reverse(l[p + 1..]) + [l[p]]
  {
  }

  /** Values pushed one after the other: a left push ends up in reverse order. */
  function Push(l: items, vals: items, left: bool): items
  {
    if left then Reverse(vals) + l else l + vals
  }

  method PushItems(l: items, vals: items, left: bool) returns (r: items)
    ensures r == Push(l, vals, left)
  {
    r := l;
    for i := 0 to |vals|
      invariant r == Push(l, vals[..i], left)
    {
      assert vals[..i + 1] == vals[..i] + [vals[i]];
      ReverseSnoc(vals[..i], vals[i]);
      r := if left then [vals[i]] + r else r + [vals[i]];
    }
    assert vals[..|vals|] == vals;
  }

  function Min(a: int, b: int): int { if a < b then a else b }

  /** How many elements a pop of `count` takes: at least one is asked for. */
  function PopCount(l: items, count: int): nat { Min(if count <= 0 then 1 else count, |l|) }

  function PopRest(l: items, count: int, left: bool): items
  {
    var k := PopCount(l, count);
    if left then l[k..] else l[..|l| - k]
  }

  function PopOut(l: items, count: int, left: bool): items
  {
    var k := PopCount(l, count);
    if left then l[..k] else Reverse(l[|l| - k..])
  }

  method PopItems(l: items, count: int, left: bool) returns (rest: items, out: items)
    ensures rest == PopRest(l, count, left) && out == PopOut(l, count, left)
    ensures |rest| + |out| == |l|
  {
    if left {
      rest, out := PopHead(l, if count <= 0 then 1 else count);
    } else {
      rest, out := PopTail(l, if count <= 0 then 1 else count);
    }
  }

  method PopHead(l: items, count: int) returns (rest: items, out: items)
    requires count > 0
    ensures rest == l[Min(count, |l|)..] && out == l[..Min(count, |l|)]
  {
    rest, out := l, [];
    var i := 0;
    while i < count && |rest| > 0
      invariant 0 <= i <= Min(count, |l|)
      invariant rest == l[i..] && out == l[..i]
    {
      out, rest := out + [rest[0]], rest[1..];
      i := i + 1;
    }
  }

  method PopTail(l: items, count: int) returns (rest: items, out: items)
    requires count > 0
    ensures var k := Min(count, |l|);
      rest == l[..|l| - k] && out == Reverse(l[|l| - k..])
  {
    rest, out := l, [];
    var i := 0;
    while i < count && |rest| > 0
      invariant 0 <= i <= Min(count, |l|)
      invariant rest <= l && |rest| == |l| - i
      invariant out == Reverse(l[|rest|..])
    {
      ghost var p := |rest| - 1;
      ReverseFrom(l, p);
      out := out + [rest[|rest| - 1]];
      rest := rest[..|rest| - 1];
      i := i + 1;
    }
  }

  lemma ReverseTwice(s: items)
    ensures Reverse(Reverse(s)) == s
  {
  }

  /** What comes out and what stays make up the list. */
  lemma PopConserves(l: items, count: int)
    ensures PopOut(l, count, true) + PopRest(l, count, true) == l
    ensures PopRest(l, count, false) + Reverse(PopOut(l, count, false)) == l
  {
    var k := PopCount(l, count);
    assert l[..k] + l[k..] == l;
    assert l[..|l| - k] + l[|l| - k..] == l;
    ReverseTwice(l[|l| - k..]);
  }

  /** A pop undoes a push at the same end, and the values come back last one first. */
  lemma PopUndoesPush(l: items, vals: items, left: bool)
    requires vals != []
    ensures PopRest(Push(l, vals, left), |vals|, left) == l
    ensures PopOut(Push(l, vals, left), |vals|, left) == Reverse(vals)
  {
    assert PopCount(Push(l, vals, left), |vals|) == |vals|;
    assert !left ==> (l + vals)[|l|..] == vals;
  }

  /** Without the first `k` occurrences of a value. */
  function RemoveFirst(l: items, v: bytes, k: nat): (r: items)
    ensures |r| <= |l|
  {
    if l == [] || k == 0 then l
    else if l[0] == v then RemoveFirst(l[1..], v, k - 1)
    else [l[0]] + RemoveFirst(l[1..], v, k)
  }

  /** Without the last `k` occurrences of a value. */
  function RemoveLast(l: items, v: bytes, k: nat): (r: items)
    ensures |r| <= |l|
  {
    var n := |l|;
    if l == [] || k == 0 then l
    else if l[n - 1] == v then RemoveLast(l[..n - 1], v, k - 1)
    else RemoveLast(l[..n - 1], v, k) + [l[n - 1]]
  }

  /** Two's complement negation: the smallest integer is its own negation. */
  function Negate64(n: int): int { if n == MIN_INT64 then MIN_INT64 else -n }

  /** LREM: a positive count removes from the head, a negative one from the tail, zero
      everything. The smallest count removes nothing, since negating it stays negative. */
  function Remove(l: items, count: int, v: bytes): (r: items)
    ensures |r| <= |l|
  {
    if count == 0 then RemoveFirst(l, v, |l|)
    else if count > 0 then RemoveFirst(l, v, count)
    else if Negate64(count) < 0 then l
    else RemoveLast(l, v, Negate64(count))
  }

  lemma Unlinked(r: items, i: nat)
    requires i < |r|
    ensures var u := r[..i] + r[i + 1..];
      |u| == |r| - 1 && u[..i] == r[..i] && u[i..] == r[i + 1..]
  {
  }

  /** One step of the forward walk, at position `i`. */
  lemma ForwardStep(r: items, i: nat, v: bytes, k: nat)
    requires i < |r| && k > 0
    ensures r[i] == v ==> RemoveFirst(r[i..], v, k) == RemoveFirst(r[i + 1..], v, k - 1)
    ensures r[i] != v ==> r[..i] + RemoveFirst(r[i..], v, k) == r[..i + 1] + RemoveFirst(r[i + 1..], v, k)
  {
    assert r[i..][1..] == r[i + 1..];
  }

  /** A forward walk that unlinks matching elements; `limit` is `None` for all of them. */
  method RemoveForward(l: items, v: bytes, limit: Option<nat>) returns (r: items, removed: nat)
    ensures r == RemoveFirst(l, v, if limit.Some? then limit.value else |l|)
    ensures removed == |l| - |r|
  {
    hide RemoveFirst;
    ghost var k := if limit.Some? then limit.value else |l|;
    r, removed := l, 0;
    var i := 0;
    assert l[..0] + RemoveFirst(l[0..], v, k) == RemoveFirst(l, v, k) by { assert l[0..] == l; }
    while i < |r| && (limit.None? || removed < limit.value)
      invariant 0 <= i <= |r| && removed <= k && |r| + removed == |l|
      invariant limit.None? ==> i + removed <= |l|
      invariant r[..i] + RemoveFirst(r[i..], v, k - removed) == RemoveFirst(l, v, k)
      decreases |r| - i
    {
      ForwardStep(r, i, v, k - removed);
      if r[i] == v {
        Unlinked(r, i);
        r := r[..i] + r[i + 1..];
        removed := removed + 1;
      } else {
        i := i + 1;
      }
    }
    RemoveFirstEnds(r[i..], v, k - removed);
    assert r[..i] + r[i..] == r;
  }

  lemma RemoveFirstEnds(l: items, v: bytes, k: nat)
    ensures l == [] || k == 0 ==> RemoveFirst(l, v, k) == l
  {
  }

  lemma BackwardStep(r: items, j: nat, v: bytes, k: nat)
    requires 0 < j <= |r| && k > 0
    ensures r[j - 1] == v ==> RemoveLast(r[..j], v, k) == RemoveLast(r[..j - 1], v, k - 1)
    ensures r[j - 1] != v ==> RemoveLast(r[..j], v, k) + r[j..] == RemoveLast(r[..j - 1], v, k) + r[j - 1..]
  {
    assert r[..j][..j - 1] == r[..j - 1];
    assert r[j - 1..] == [r[j - 1]] + r[j..];
  }

  /** The mirror image, from the tail. */
  method RemoveBackward(l: items, v: bytes, need: int) returns (r: items, removed: nat)
    ensures r == if need < 0 then l else RemoveLast(l, v, need)
    ensures removed == |l| - |r|
  {
    r, removed := l, 0;
    var j := |l|;
    assert l[..j] == l && l[j..] == [];
    while j > 0 && removed < need
      invariant 0 <= j <= |r| && (need >= 0 ==> removed <= need) && |r| + removed == |l|
      invariant need < 0 ==> r == l
      invariant need >= 0 ==> RemoveLast(r[..j], v, need - removed) + r[j..] == RemoveLast(l, v, need)
    {
      BackwardStep(r, j, v, need - removed);
      if r[j - 1] == v {
        Unlinked(r, j - 1);
        r := r[..j - 1] + r[j..];
        removed := removed + 1;
      }
      j := j - 1;
    }
    assert r[..j] + r[j..] == r;
  }

  method RemoveItems(l: items, count: int, v: bytes) returns (r: items, removed: nat)
    ensures r == Remove(l, count, v) && removed == |l| - |r|
  {
    if count == 0 {
      r, removed := RemoveForward(l, v, None);
    } else if count > 0 {
      r, removed := RemoveForward(l, v, Some(count));
    } else {
      r, removed := RemoveBackward(l, v, Negate64(count));
    }
  }

  function Count(l: items, v: bytes): nat
  {
    if l == [] then 0 else Count(l[1..], v) + if l[0] == v then 1 else 0
  }

  function Without(l: items, v: bytes): items
  {
    if l == [] then [] else if l[0] == v then Without(l[1..], v) else [l[0]] + Without(l[1..], v)
  }

  /** Removing from the head strips the value from a prefix and leaves the rest alone; the prefix
      holds as many occurrences as were asked for, or all there are. */
  lemma {:induction false} RemoveFirstMeaning(l: items, v: bytes, k: nat) returns (p: nat)
    ensures p <= |l|
    ensures RemoveFirst(l, v, k) == Without(l[..p], v) + l[p..]
    ensures Count(l[..p], v) == Min(k, Count(l, v))
    ensures Count(l[..p], v) < k ==> p == |l|
  {
    if l == [] || k == 0 {
      return 0;
    }
    var q := RemoveFirstMeaning(l[1..], v, if l[0] == v then k - 1 else k);
    p := q + 1;
    assert l[..p][1..] == l[1..][..q];
  }

  lemma {:induction false} WithoutSnoc(l: items, x: bytes, v: bytes)
    ensures Without(l + [x], v) == Without(l, v) + if x == v then [] else [x]
    ensures Count(l + [x], v) == Count(l, v) + if x == v then 1 else 0
  {
    if l != [] {
      WithoutSnoc(l[1..], x, v);
      assert (l + [x])[1..] == l[1..] + [x];
    }
  }

  lemma CountFront(l: items, v: bytes, p: nat)
    requires p < |l|
    ensures var x := l[|l| - 1]; var front := l[..|l| - 1];
      && Without(l[p..], v) == Without(front[p..], v) + (if x == v then [] else [x])
      && Count(l[p..], v) == Count(front[p..], v) + (if x == v then 1 else 0)
      && l[0..] == l && front[0..] == front
  {
    var front := l[..|l| - 1];
    assert l[p..] == front[p..] + [l[|l| - 1]];
    WithoutSnoc(front[p..], l[|l| - 1], v);
  }

  /** And from the tail, a suffix. */
  lemma {:induction false} RemoveLastMeaning(l: items, v: bytes, k: nat) returns (p: nat)
    ensures p <= |l|
    ensures RemoveLast(l, v, k) == l[..p] + Without(l[p..], v)
    ensures Count(l[p..], v) == Min(k, Count(l, v))
    ensures Count(l[p..], v) < k ==> p == 0
  {
    if l == [] || k == 0 {
      return |l|;
    }
    var x, front := l[|l| - 1], l[..|l| - 1];
    p := RemoveLastMeaning(front, v, if x == v then k - 1 else k);
    RemoveLastSnoc(l, v, k, p);
  }

  lemma RemoveLastSnoc(l: items, v: bytes, k: nat, p: nat)
    requires l != [] && k > 0 && p < |l|
    requires var x, front := l[|l| - 1], l[..|l| - 1];
      var j := if x == v then k - 1 else k;
      RemoveLast(front, v, j) == front[..p] + Without(front[p..], v)
      && Count(front[p..], v) == Min(j, Count(front, v)) && (Count(front[p..], v) < j ==> p == 0)
    ensures RemoveLast(l, v, k) == l[..p] + Without(l[p..], v)
    ensures Count(l[p..], v) == Min(k, Count(l, v)) && (Count(l[p..], v) < k ==> p == 0)
  {
    hide Without, Count;
    var x, front := l[|l| - 1], l[..|l| - 1];
    CountFront(l, v, 0);
    CountFront(l, v, p);
    assert l[..p] == front[..p];
    if x != v {
      assert front[..p] + Without(front[p..], v) + [x] == front[..p] + (Without(front[p..], v) + [x]);
    } else {
      assert Without(front[p..], v) + [] == Without(front[p..], v);
    }
  }

  /** Negative indexes count from the tail; what is still out of range is clamped into it. */
  function NormalizeIndex(idx: int, n: nat): (r: int)
    ensures n > 0 ==> 0 <= r < n
    ensures 0 <= idx < n ==> r == idx
    ensures idx < 0 <= n + idx ==> r == n + idx
  {
    var i := if idx < 0 then n + idx else idx;
    if i < 0 then 0 else if i >= n then n - 1 else i
  }

  /** The elements LTRIM keeps. */
  function Slice(l: items, start: int, stop: int): items
  {
    if l == [] then []
    else
      var st, en := NormalizeIndex(start, |l|), NormalizeIndex(stop, |l|);
      if st > en then [] else l[st..en + 1]
  }

  /** Bounds inside the list keep just the elements between them, and 0 to -1 keeps all. */
  lemma SliceMeaning(l: items, start: int, stop: int)
    ensures 0 <= start <= stop < |l| ==> Slice(l, start, stop) == l[start..stop + 1]
    ensures Slice(l, 0, -1) == l
  {
  }

  method SliceItems(l: items, start: int, stop: int) returns (r: items)
    ensures r == Slice(l, start, stop)
  {
    var n := |l|;
    r := [];
    if n == 0 { return; }
    var st, en := NormalizeIndex(start, n), NormalizeIndex(stop, n);
    if st > en { return; }
    for i := 0 to n
      invariant r == if i <= st then [] else l[st..Min(i, en + 1)]
    {
      if st <= i <= en {
        r := r + [l[i]];
      }
    }
  }

  /** The first position of a value, or the length when there is none. */
  function IndexOf(l: items, v: bytes): (i: nat)
    ensures i <= |l| && (i < |l| ==> l[i] == v)
    ensures forall j :: 0 <= j < i ==> l[j] != v
  {
    if l == [] || l[0] == v then 0
    else
      var i := IndexOf(l[1..], v) + 1;
      assert forall j :: 0 < j < i ==> l[j] == l[1..][j - 1];
      i
  }

  function InsertAt(l: items, at: nat, x: bytes): items
    requires at <= |l|
  {
    l[..at] + [x] + l[at..]
  }

  /** LINSERT next to the first occurrence of the pivot. */
  function Insert(l: items, before: bool, pivot: bytes, x: bytes): (r: items)
    ensures pivot !in l ==> r == l
  {
    var i := IndexOf(l, pivot);
    if i == |l| then l else InsertAt(l, if before then i else i + 1, x)
  }

  /** The new element stands right before or after the first pivot, and nothing else moved. */
  lemma InsertMeaning(l: items, before: bool, pivot: bytes, x: bytes) returns (p: nat)
    requires pivot in l
    ensures p < |l| && l[p] == pivot && pivot !in l[..p]
    ensures var r, at := Insert(l, before, pivot, x), if before then p else p + 1;
      |r| == |l| + 1 && r[at] == x && r[..at] + r[at + 1..] == l
  {
    p := IndexOf(l, pivot);
    var at := if before then p else p + 1;
    var r := InsertAt(l, at, x);
    assert r[..at] == l[..at] && r[at + 1..] == l[at..];
    assert l[..at] + l[at..] == l;
  }

  /** The copying walk: the new element goes in when the pivot's position comes by. */
  method CopyAround(l: items, p: nat, before: bool, x: bytes) returns (r: items)
    requires p < |l|
    ensures r == InsertAt(l, if before then p else p + 1, x)
  {
    r := [];
    ghost var at := if before then p else p + 1;
    for i := 0 to |l|
      invariant r == if i <= p then l[..i] else l[..at] + [x] + l[at..i]
    {
      if before && i == p { r := r + [x]; }
      r := r + [l[i]];
      if !before && i == p { r := r + [x]; }
    }
  }

  method InsertItems(l: items, before: bool, pivot: bytes, x: bytes) returns (found: bool, r: items)
    ensures found <==> pivot in l
    ensures r == Insert(l, before, pivot, x)
  {
    var p := 0;
    while p < |l| && l[p] != pivot
      invariant p <= |l| && forall j :: 0 <= j < p ==> l[j] != pivot
    {
      p := p + 1;
    }
    assert p == IndexOf(l, pivot) by { assert !(p < IndexOf(l, pivot)) && !(IndexOf(l, pivot) < p); }
    if p == |l| { return false, l; }
    r := CopyAround(l, p, before, x);
    found := true;
  }
}
