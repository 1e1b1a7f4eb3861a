/** The store's operations, each written on top of lookup, room-making and replacement. */
module Operations {
  import opened Bytes
  import opened Lists
  import opened Keyspace
  import opened Memory
  import opened Shards
  import opened Store

  /** What a client sees under one key at a moment. */
  ghost function DataAt(view: map<bytes, Rec>, key: bytes, now: int): Data
  {
    if Live(view, key, now) then map[key := view[key].value] else map[]
  }

  ghost predicate Live(view: map<bytes, Rec>, key: bytes, now: int)
  {
    key in view && !IsExpired(view[key], now)
  }

  /** The expiry a live key carries on to its next value. */
  ghost function ExpiryAt(view: map<bytes, Rec>, key: bytes, now: int): Option<int>
  {
    if Live(view, key, now) then view[key].expiresAt else None
  }

  /** What every operation on one key keeps: consistency, the other keys, the exactness of the
      counter, and the expiry of the key if it lives on. */
  twostate predicate Proper(s: Store, key: bytes, now: int)
    reads s
  {
    && s.Valid() && s.Spares(key)
    && (old(s.clean) ==> s.clean)
    && (Live(s.view, key, now) ==> s.view[key].expiresAt == ExpiryAt(old(s.view), key, now))
  }

  /** Two stores hold the same under all other keys. */
  ghost predicate Elsewhere(view: map<bytes, Rec>, other: map<bytes, Rec>, key: bytes)
  {
    forall k :: k != key ==> (k in view <==> k in other) && (k in view ==> view[k] == other[k])
  }

  lemma PutElsewhere(view: map<bytes, Rec>, key: bytes, r: Rec)
    ensures Elsewhere(view, view, key) && Elsewhere(view[key := r], view, key) && Elsewhere(view - {key}, view, key)
  {
  }

  /** Storing a value under the key takes evictions, once what has expired there is gone. */
  ghost predicate Tight(s: Store, key: bytes, v: Value, now: int)
    reads s
  {
    var used := if Live(s.view, key, now) then s.mem else NonNegative(s.mem - SizeAt(s.view, key));
    s.Crowded(used, Footprint(key, v) - LiveSize(s.view, key, now))
  }

  ghost predicate TightFor(s: Store, key: bytes, d: Data, now: int)
    reads s
  {
    key in d && Tight(s, key, d[key], now)
  }

  /** A write without need for room succeeds and leaves every other key alone. */
  twostate predicate Roomy(s: Store, key: bytes, tight: bool, oom: bool)
    reads s
  {
    !tight ==> !oom && Elsewhere(s.view, old(s.view), key)
  }

  /** If the key is still there, it was used last. */
  twostate predicate Used(s: Store, key: bytes)
    reads s
  {
    key in s.view ==> Newer(s.book, key, s.policy, s.view[key].expiresAt.Some?, old(s.book).clock)
  }

  method Get(s: Store, key: bytes, now: int) returns (r: Reply)
    requires s.Valid()
    modifies s
    ensures Proper(s, key, now) && s.popped == old(s.popped) && Elsewhere(s.view, old(s.view), key)
    ensures r.Values? && r.vs != [] ==> Used(s, key)
    ensures !(r.Values? && r.vs != []) ==> s.book == old(s.book)
    ensures DataAt(s.view, key, now) == DataAt(old(s.view), key, now)
    ensures r == var d := DataAt(old(s.view), key, now);
              if key !in d then Values([]) else if d[key].Str? then Values([d[key].str]) else Fail(WrongType)
  {
    hide Structured, Total, Footprint;
    var e := s.Lookup(key, now);
    if e.None? { return Values([]); }
    if !e.value.value.Str? { return Fail(WrongType); }
    s.Touch(key);
    r := Values([e.value.value.str]);
  }

  /** The booked size of a live entry. */
  ghost function LiveSize(view: map<bytes, Rec>, key: bytes, now: int): nat
  {
    if Live(view, key, now) then SizeAt(view, key) else 0
  }

  /** Storing what `d` has under the key was refused for lack of memory. */
  ghost predicate Refusal(s: Store, key: bytes, d: Data, was: nat)
    reads s
  {
    key in d && s.RoomRefused(key, Footprint(key, d[key]) - was)
  }

  /** SET, with its variants that demand an absent or a present key. */
  method SetString(s: Store, key: bytes, val: bytes, exp: Option<int>, nx: bool, xx: bool, now: int)
    returns (wrote: bool, oom: bool)
    requires s.Valid()
    modifies s
    ensures s.Valid() && s.Spares(key) && (old(s.clean) ==> s.clean) && s.popped == old(s.popped)
    ensures wrote ==> key in s.view && s.view[key] == Rec(Str(val), exp)
    ensures wrote ==> (nx ==> !Live(old(s.view), key, now)) && (xx ==> Live(old(s.view), key, now))
    ensures !wrote && !oom ==> (nx && Live(old(s.view), key, now)) || (xx && (!Live(old(s.view), key, now) || key == []))
    ensures wrote && s.clean && !s.WithinBudget() ==>
              && Live(old(s.view), key, now) && old(s.Risky(key, Footprint(key, Str(val))))
              && s.mem <= s.Limit() + SizeAt(old(s.view), key)
    ensures wrote && s.clean && Live(old(s.view), key, now) && old(s.Doomed(key, Footprint(key, Str(val)))) ==>
              !s.WithinBudget()
    ensures s.book == if wrote then Stamped(old(s.book), key, s.policy, exp.Some?) else old(s.book)
    ensures Roomy(s, key, old(Tight(s, key, Str(val), now)), oom)
    ensures !wrote && key in s.view ==> key in old(s.view) && s.view[key] == old(s.view)[key]
    ensures !wrote && key != [] && Live(old(s.view), key, now) ==> key in s.view
    ensures oom ==> !wrote
    ensures oom ==> s.RoomRefused(key, Footprint(key, Str(val)) - LiveSize(old(s.view), key, now))
  {
    hide Structured, Total, Footprint;
    var prev := s.Lookup(key, now);
    if nx && prev.Some? { return false, false; }
    if xx && prev.None? { return false, false; }
    wrote, oom := FinishSet(s, key, prev, Rec(Str(val), exp), xx, now);
  }

  /** The second half of SET: makes room, and looks again if that meant evicting. */
  method FinishSet(s: Store, key: bytes, prev: Option<Entry>, r: Rec, xx: bool, now: int) returns (wrote: bool, oom: bool)
    requires s.Valid()
    requires prev.None? ==> key !in s.view
    requires prev.Some? ==> s.Holds(key, prev.value) && key in s.view && !IsExpired(s.view[key], now)
    modifies s
    ensures s.Valid() && s.Spares(key) && (old(s.clean) ==> s.clean) && s.popped == old(s.popped)
    ensures wrote ==> key in s.view && s.view[key] == r
    ensures !wrote && !oom ==> xx && (prev.None? || key == [])
    ensures wrote && s.clean && !s.WithinBudget() ==>
              old(s.Risky(key, Footprint(key, r.value))) && s.mem <= s.Limit() + SizeAt(old(s.view), key)
    ensures wrote && s.clean && old(s.Doomed(key, Footprint(key, r.value))) ==> !s.WithinBudget()
    ensures s.book == if wrote then Stamped(old(s.book), key, s.policy, r.expiresAt.Some?) else old(s.book)
    ensures Roomy(s, key, s.Crowded(old(s.mem), Footprint(key, r.value) - SizeAt(old(s.view), key)), oom)
    ensures !wrote && key in s.view ==> key in old(s.view) && s.view[key] == old(s.view)[key]
    ensures !wrote && key != [] && key in old(s.view) ==> key in s.view
    ensures oom ==> !wrote
    ensures oom ==> s.RoomRefused(key, Footprint(key, r.value) - SizeAt(old(s.view), key))
  {
    hide Store.Valid, Total, Footprint, Store.NothingLeft, Store.NoneTooMany, NextInLine, Restamped, Stamped,
         Store.RoomRefused, Store.Evictable, Elsewhere;
    PutElsewhere(s.view, key, r);
    SameRestamps(s.book, {key});
    StampedRestamps(s.book, key, s.policy, r.expiresAt.Some?);
    var newB := EstimateMem(key, r.value);
    var oldB := s.SizeBefore(key, prev);
    var evicted, ok := s.EnsureMemory(key, newB - oldB);
    oom, wrote := !ok, false;
    if ok { wrote := Rewrite(s, key, evicted, prev, r, xx, now); }
  }

  /** The last step of SET, on what it found or, after evictions, on what it finds now. */
  method Rewrite(s: Store, key: bytes, evicted: bool, prev: Option<Entry>, r: Rec, xx: bool, now: int)
    returns (wrote: bool)
    requires s.Valid() && (key in s.view ==> !IsExpired(s.view[key], now))
    requires !evicted ==> (prev.None? ==> key !in s.view) && (prev.Some? ==> s.Holds(key, prev.value) && key in s.view)
    modifies s`shards, s`nextId, s`book, s`view, s`mem, s`watch, s`clean
    ensures s.Valid() && s.SameHistory() && s.clean == old(s.clean)
    ensures !wrote <==> evicted && xx && key !in old(s.view)
    ensures s.view == if wrote then old(s.view)[key := r] else old(s.view)
    ensures s.book == if wrote then Stamped(old(s.book), key, s.policy, r.expiresAt.Some?) else old(s.book)
    ensures wrote && s.clean ==> s.mem == old(s.mem) - SizeAt(old(s.view), key) + Footprint(key, r.value)
    ensures !wrote ==> s.mem == old(s.mem)
  {
    hide Store.Valid, Total, Footprint;
    var cur := prev;
    if evicted {
      cur := s.Lookup(key, now);
      if xx && cur.None? { return false; }
    }
    s.Replace(key, cur, r);
    wrote := true;
  }

  /** What an increment answers: the sum with what the key holds, a missing or blank value
      counting as 0, unless that is no number or the sum leaves the 64-bit range. */
  function Incremented(d: Data, key: bytes, delta: int64): Reply
  {
    if key !in d then Num(delta)
    else if !d[key].Str? then Fail(WrongType)
    else
      var text := TrimSpace(d[key].str);
      if text == [] then Num(delta)
      else if ParseInt(text).None? then Fail(NotANumber)
      else if MIN_INT64 <= ParseInt(text).value + delta <= MAX_INT64 then Num(ParseInt(text).value + delta)
      else Fail(WouldOverflow)
  }

  /** What a run is judged by: the data, the counter and what is not on it, the limit, and who was
      used when. */
  datatype Facts = Facts(view: map<bytes, Rec>, mem: int, popped: nat, maxMem: nat, book: Book)

  ghost function FactsOf(s: Store): Facts
    reads s
  {
    Facts(s.view, s.mem, s.popped, s.maxMem, s.book)
  }

  /** The counter is the booked size of everything plus 32 bytes per list element removed in place. */
  ghost predicate Exact(f: Facts) { f.mem == Total(f.view) + PER_ELEMENT * f.popped }

  /** An increment that takes an expired entry off the counter twice: it is stored, it is not all
      the counter has, and the new value fits without evicting. */
  ghost predicate Miscounts(f: Facts, key: bytes, delta: int64, now: int)
  {
    && key in f.view && IsExpired(f.view[key], now) && f.mem != SizeAt(f.view, key)
    && (f.maxMem == 0 || f.mem - SizeAt(f.view, key) + Footprint(key, Str(FormatInt(delta))) <= Signed(f.maxMem))
  }

  /** INCRBY. The entry found expired is purged, and unless making room intervenes it is then
      handed to the replacement as if it were still stored. */
  method IncrBy(s: Store, key: bytes, delta: int64, now: int) returns (r: Reply, oom: bool)
    requires s.Valid()
    modifies s
    ensures s.Valid() && s.Spares(key) && s.popped == old(s.popped)
    ensures s.clean ==> old(s.clean)
    ensures old(s.clean) ==> (s.clean <==> !Miscounts(old(FactsOf(s)), key, delta, now))
    ensures old(s.clean) ==> (s.clean <==> Exact(FactsOf(s)))
    ensures !oom ==> r == Incremented(DataAt(old(s.view), key, now), key, delta)
    ensures r.Num? && !oom ==> key in s.view && s.view[key] == Rec(Str(FormatInt(r.n)), ExpiryAt(old(s.view), key, now))
    ensures r.Fail? ==> s.clean == old(s.clean)
    ensures s.book == if r.Num? && !oom then Stamped(old(s.book), key, s.policy, s.view[key].expiresAt.Some?)
                      else old(s.book)
    ensures var sum := Incremented(DataAt(old(s.view), key, now), key, delta);
      Roomy(s, key, sum.Num? && old(Tight(s, key, Str(FormatInt(sum.n)), now)), oom)
    ensures r.Num? && !oom && s.clean && (key != [] || key !in old(s.view)) ==> s.WithinBudget()
    ensures oom ==> var sum := Incremented(DataAt(old(s.view), key, now), key, delta);
              sum.Num? && s.RoomRefused(key, Footprint(key, Str(FormatInt(sum.n))) - LiveSize(old(s.view), key, now))
    ensures r.Num? && !oom && s.maxMem == 0 && key in old(s.view) && IsExpired(old(s.view)[key], now) ==>
              s.mem == NonNegative(NonNegative(old(s.mem) - SizeAt(old(s.view), key)) - SizeAt(old(s.view), key))
                       + Footprint(key, s.view[key].value)
  {
    assert Footprint(key, Str(FormatInt(delta))) > 0;
    hide Store.Valid, Total, Footprint, Store.NothingLeft, Incremented, FormatInt;
    oom := false;
    var e, stale;
    r, e, stale := Look(s, key, delta, now);
    if r.Fail? {
      if s.clean { CleanExact(s); }
      return r, false;
    }
    var ok := CommitSum(s, key, e, stale, Rec(Str(FormatInt(r.n)), if e.Some? then e.value.expiresAt else None));
    oom := !ok;
  }

  /** The first half of an increment: what it finds, what of that is still stored, and the sum. */
  method Look(s: Store, key: bytes, delta: int64, now: int) returns (r: Reply, e: Option<Entry>, stale: Option<Entry>)
    requires s.Valid()
    modifies s`shards, s`view, s`mem, s`watch
    ensures s.Valid() && s.mem <= old(s.mem)
    ensures r == Incremented(DataAt(old(s.view), key, now), key, delta) && (r.Num? || r.Fail?)
    ensures e.Some? <==> Live(old(s.view), key, now)
    ensures e.Some? ==> s.view == old(s.view) && s.mem == old(s.mem)
    ensures e.Some? ==> s.Holds(key, e.value) && RecOf(e.value) == s.view[key]
    ensures e.None? ==> r == Num(delta) && s.view == old(s.view) - {key}
    ensures e.None? ==> s.mem == NonNegative(old(s.mem) - SizeAt(old(s.view), key))
    ensures e.None? && s.clean ==> s.mem == old(s.mem) - SizeAt(old(s.view), key)
    ensures stale.Some? <==> key in old(s.view)
    ensures stale.Some? ==> stale.value.value == old(s.view)[key].value && stale.value.all.None? && stale.value.vol.None?
  {
    hide Store.Valid, Footprint, Incremented;
    stale := StoredBefore(s, key);
    e := s.Lookup(key, now);
    r := Sum(e, delta, DataAt(old(s.view), key, now), key);
  }

  lemma CleanExact(s: Store)
    requires s.Valid() && s.clean
    ensures Exact(FactsOf(s))
  { }

  /** What the increment has in hand of the key before it looks whether it has expired. */
  method StoredBefore(s: Store, key: bytes) returns (o: Option<Entry>)
    requires s.Valid()
    ensures o.Some? <==> key in s.view
    ensures o.Some? ==> o.value.value == s.view[key].value && o.value.all.None? && o.value.vol.None?
  {
    hide Structured;
    s.Stored(key);
    var m := s.shards[s.shardOf(key)].m;
    o := if key in m then Some(m[key].(all := None, vol := None)) else None;
  }

  method Sum(e: Option<Entry>, delta: int64, ghost d: Data, ghost key: bytes) returns (r: Reply)
    requires d == OneKey(key, if e.Some? then Some(e.value.value) else None)
    ensures r == Incremented(d, key, delta) && (r.Num? || r.Fail?)
    ensures e.None? ==> r == Num(delta)
  {
    var cur: int := 0;
    if e.Some? {
      if !e.value.value.Str? { return Fail(WrongType); }
      var text := TrimSpace(e.value.value.str);
      if text != [] {
        var v := ParseInt(text);
        if v.None? { return Fail(NotANumber); }
        cur := v.value;
      }
    }
    var x: int := delta;
    if (x > 0 && cur > MAX_INT64 - x) || (x < 0 && cur < MIN_INT64 - x) { return Fail(WouldOverflow); }
    r := Num(cur + x);
  }

  /** Stores the sum over the live entry, or over the expired one that is gone already. */
  method CommitSum(s: Store, key: bytes, e: Option<Entry>, stale: Option<Entry>, r: Rec) returns (ok: bool)
    requires s.Valid() && (e.None? ==> key !in s.view) && (e.Some? ==> s.Holds(key, e.value) && key in s.view)
    requires stale.Some? ==> stale.value.all.None? && stale.value.vol.None?
    modifies s
    ensures s.Valid() && s.Spares(key) && s.popped == old(s.popped)
    ensures ok ==> key in s.view && s.view[key] == r
    ensures s.clean ==> old(s.clean)
    ensures old(s.clean) ==>
              (s.clean <==> e.Some? || stale.None? || old(s.mem) == 0 || s.Crowded(old(s.mem), Footprint(key, r.value)))
    ensures old(s.clean) ==> (s.clean <==> Exact(FactsOf(s)))
    ensures ok && s.clean && (key != [] || e.None?) ==> s.WithinBudget()
    ensures s.book == if ok then Stamped(old(s.book), key, s.policy, r.expiresAt.Some?) else old(s.book)
    ensures Roomy(s, key, s.Crowded(old(s.mem), Footprint(key, r.value) - SizeAt(old(s.view), key)), !ok)
    ensures !ok ==> s.RoomRefused(key, Footprint(key, r.value) - SizeAt(old(s.view), key))
    ensures ok && s.maxMem == 0 && e.None? && stale.Some? ==>
              s.mem == NonNegative(old(s.mem) - Footprint(key, stale.value.value)) + Footprint(key, r.value)
  {
    hide Store.Valid, Total, Footprint, Store.NothingLeft;
    if e.None? && stale.Some? {
      ok := CommitStale(s, key, stale.value, r);
    } else {
      ok := s.Commit(key, e, r);
      if s.clean { CleanExact(s); }
    }
  }

  /** The end of an increment that found an expired entry: the entry is gone from the store, and
      is handed on all the same. */
  method CommitStale(s: Store, key: bytes, stale: Entry, r: Rec) returns (ok: bool)
    requires s.Valid() && s.Loose(key, stale)
    modifies s
    ensures s.Valid() && s.Spares(key) && s.popped == old(s.popped)
    ensures ok ==> key in s.view && s.view[key] == r
    ensures s.clean ==> old(s.clean)
    ensures old(s.clean) ==> (s.clean <==> old(s.mem) == 0 || s.Crowded(old(s.mem), Footprint(key, r.value)))
    ensures old(s.clean) ==> (s.clean <==> Exact(FactsOf(s)))
    ensures ok && s.clean ==> s.WithinBudget()
    ensures s.book == if ok then Stamped(old(s.book), key, s.policy, r.expiresAt.Some?) else old(s.book)
    ensures Roomy(s, key, s.Crowded(old(s.mem), Footprint(key, r.value)), !ok)
    ensures !ok ==> s.RoomRefused(key, Footprint(key, r.value))
    ensures ok && s.maxMem == 0 ==>
              s.mem == NonNegative(old(s.mem) - Footprint(key, stale.value)) + Footprint(key, r.value)
  {
    assert Footprint(key, r.value) > 0 && Footprint(key, stale.value) > 0;
    hide Structured, Total, Footprint, Store.NothingLeft;
    TotalPut(s.view, key, r);
    ok := s.Commit(key, Some(stale), r);
    if ok { s.clean := old(s.clean) && Exact(FactsOf(s)); }
  }

  // ----- collections ------------------------------------------------------------------------

  /** Stores a new value under a key whose live entry, if any, is `e`; the expiry stays. */
  method Update(s: Store, key: bytes, e: Option<Entry>, v: Value, now: int) returns (ok: bool)
    requires s.Valid()
    requires e.None? ==> key !in s.view
    requires e.Some? ==> s.Holds(key, e.value) && key in s.view && s.view[key] == RecOf(e.value)
    modifies s
    ensures s.Valid() && s.Spares(key) && (old(s.clean) ==> s.clean) && s.popped == old(s.popped)
    ensures ok ==> key in s.view && s.view[key] == Rec(v, if e.Some? then e.value.expiresAt else None)
    ensures !ok ==> s.OnlyEvictions(key) && s.RoomRefused(key, Footprint(key, v) - SizeAt(old(s.view), key))
    ensures ok && s.clean && !s.WithinBudget() ==> old(s.Risky(key, Footprint(key, v)))
    ensures ok && s.clean && old(s.Doomed(key, Footprint(key, v))) ==> !s.WithinBudget()
    ensures if ok then Used(s, key) else s.book == old(s.book)
    ensures Roomy(s, key, s.Crowded(old(s.mem), Footprint(key, v) - SizeAt(old(s.view), key)), !ok)
  {
    hide Structured, Total, Footprint, Store.NothingLeft, NextInLine, Restamped;
    ok := s.Commit(key, e, Rec(v, if e.Some? then e.value.expiresAt else None));
  }

  function Pushed(d: Data, key: bytes, vals: items, left: bool, mustExist: bool): Outcome
  {
    if mustExist then ListPushX(d, key, vals, left) else ListPush(d, key, vals, left)
  }

  lemma PushedElse(d: Data, key: bytes, vals: items, left: bool, mustExist: bool)
    requires vals != [] && if key in d then !d[key].List? else mustExist
    ensures Pushed(d, key, vals, left, mustExist) == Outcome(d, if key in d then Fail(WrongType) else Num(0))
  {
  }

  lemma PushedOne(d: Data, key: bytes, e: Option<Entry>, vals: items, left: bool, mustExist: bool)
    requires vals != [] && if e.Some? then e.value.value.List? else !mustExist
    requires d == OneKey(key, if e.Some? then Some(e.value.value) else None)
    ensures var l := Lists.Push(if e.Some? then e.value.value.list else [], vals, left);
      Pushed(d, key, vals, left, mustExist) == Outcome(map[key := List(l)], Num(|l|))
  {
  }

  method Push(s: Store, key: bytes, vals: items, left: bool, mustExist: bool, now: int) returns (r: Reply, oom: bool)
    requires s.Valid()
    modifies s
    ensures Proper(s, key, now) && s.popped == old(s.popped)
    ensures !oom ==> Outcome(DataAt(s.view, key, now), r)
                     == Pushed(DataAt(old(s.view), key, now), key, vals, left, mustExist)
    ensures oom ==> Refusal(s, key, Pushed(DataAt(old(s.view), key, now), key, vals, left, mustExist).data,
                            LiveSize(old(s.view), key, now))
    ensures oom && key != [] ==> DataAt(s.view, key, now) == DataAt(old(s.view), key, now)
    ensures Roomy(s, key, old(TightFor(s, key, Pushed(DataAt(s.view, key, now), key, vals, left, mustExist).data, now)),
                  oom)
    ensures !oom && !r.Fail? && vals != [] ==> Used(s, key)
    ensures !oom && s.clean && (key != [] || key !in old(s.view)) ==> s.WithinBudget()
  {
    hide Store.Valid, Lists.Push;
    if vals == [] {
      r := Length(s, key, now);
      return r, false;
    }
    r, oom := PushSome(s, key, vals, left, mustExist, now);
  }

  method Length(s: Store, key: bytes, now: int) returns (r: Reply)
    requires s.Valid()
    modifies s
    ensures Proper(s, key, now) && s.popped == old(s.popped) && s.mem <= old(s.mem)
    ensures Elsewhere(s.view, old(s.view), key) && s.book == old(s.book)
    ensures DataAt(s.view, key, now) == DataAt(old(s.view), key, now)
    ensures r == ListLen(DataAt(old(s.view), key, now), key)
  {
    hide Store.Valid;
    var e := s.Lookup(key, now);
    r := if e.None? then Num(0) else if e.value.value.List? then Num(|e.value.value.list|) else Fail(WrongType);
  }

  method PushSome(s: Store, key: bytes, vals: items, left: bool, mustExist: bool, now: int) returns (r: Reply, oom: bool)
    requires s.Valid() && vals != []
    modifies s
    ensures Proper(s, key, now) && s.popped == old(s.popped)
    ensures !oom ==> Outcome(DataAt(s.view, key, now), r)
                     == Pushed(DataAt(old(s.view), key, now), key, vals, left, mustExist)
    ensures oom ==> Refusal(s, key, Pushed(DataAt(old(s.view), key, now), key, vals, left, mustExist).data,
                            LiveSize(old(s.view), key, now))
    ensures oom && key != [] ==> DataAt(s.view, key, now) == DataAt(old(s.view), key, now)
    ensures Roomy(s, key, old(TightFor(s, key, Pushed(DataAt(s.view, key, now), key, vals, left, mustExist).data, now)),
                  oom)
    ensures !oom && !r.Fail? && vals != [] ==> Used(s, key)
    ensures !oom && s.clean && (key != [] || key !in old(s.view)) ==> s.WithinBudget()
  {
    hide Store.Valid, Lists.Push, Pushed, Restamped, Footprint, Store.NothingLeft, NextInLine, Newer;
    SameRestamps(s.book, {key});
    var e := s.Lookup(key, now);
    ghost var d := DataAt(old(s.view), key, now);
    if (mustExist && e.None?) || (e.Some? && !e.value.value.List?) {
      PushedElse(d, key, vals, left, mustExist);
      return if e.None? then Num(0) else Fail(WrongType), false;
    }
    PushedOne(d, key, e, vals, left, mustExist);
    var l := PushItems(if e.Some? then e.value.value.list else [], vals, left);
    var ok := Update(s, key, e, List(l), now);
    r, oom := Num(|l|), !ok;
  }

  /** A key's value replaced, its expiry kept; `None` takes the key away. */
  ghost function Changed(view: map<bytes, Rec>, key: bytes, v: Option<Value>): map<bytes, Rec>
    requires key in view
  {
    if v.None? then view - {key} else view[key := view[key].(value := v.value)]
  }

  function OneKey(key: bytes, v: Option<Value>): Data { if v.None? then map[] else map[key := v.value] }

  /** Collections leave the store when they run empty. */
  function Listed(l: items): Option<Value> { if l == [] then None else Some(List(l)) }

  twostate predicate Edited(s: Store, key: bytes, v: Option<Value>)
    requires key in old(s.view)
    reads s
  {
    && s.Valid() && s.clean == old(s.clean) && s.view == Changed(old(s.view), key, v)
    && s.policy == old(s.policy) && s.maxMem == old(s.maxMem) && s.SameHistory()
    && Restamped(old(s.book), s.book, {key})
    && (v.Some? ==> Newer(s.book, key, s.policy, old(s.view)[key].expiresAt.Some?, old(s.book).clock))
  }

  lemma NewerStill(b: Book, key: bytes, pol: Policy, expires: bool, clock: nat, earlier: nat)
    requires Newer(b, key, pol, expires, clock) && earlier <= clock
    ensures Newer(b, key, pol, expires, earlier)
  {
  }

  lemma AgainRestamped(b: Book, c: Book, d: Book, key: bytes)
    requires Restamped(b, c, {key}) && Restamped(c, d, {key})
    ensures Restamped(b, d, {key}) && b.clock <= c.clock
  {
    RestampedTrans(b, c, d, {key}, {key});
    assert {key} + {key} == {key};
  }

  /** Records an access and returns the entry as it is then. */
  method Access(s: Store, key: bytes) returns (e: Entry)
    requires s.Valid() && key in s.view
    modifies s`shards, s`nextId, s`book
    ensures s.Valid() && s.Holds(key, e) && RecOf(e) == s.view[key] && s.SameHistory()
    ensures Restamped(old(s.book), s.book, {key})
    ensures Newer(s.book, key, s.policy, s.view[key].expiresAt.Some?, old(s.book).clock)
  {
    hide Structured, Total, Footprint;
    StampedRestamps(s.book, key, s.policy, s.view[key].expiresAt.Some?);
    s.Touch(key);
    e := EntryOf(s, key);
  }

  /** Dropping or putting again what was just put. */
  lemma EditTwice(view: map<bytes, Rec>, key: bytes, r: Rec)
    ensures view[key := r] - {key} == view - {key} && view[key := r][key := r] == view[key := r]
  {
  }

  method EntryOf(s: Store, key: bytes) returns (e: Entry)
    requires s.Valid() && key in s.view
    ensures s.Holds(key, e) && RecOf(e) == s.view[key]
  {
    hide Structured;
    s.Stored(key);
    e := s.shards[s.shardOf(key)].m[key];
  }

  /** Puts the rest of a list that was edited in place: an empty list is purged, and the
      replacement of any other finds old and new entry of equal size. */
  method Settle(s: Store, key: bytes, l: items)
    requires s.Valid() && key in s.view && s.view[key].value.List? && |l| <= |s.view[key].value.list|
    modifies s
    ensures Edited(s, key, Listed(l))
    ensures s.popped == old(s.popped) + |old(s.view)[key].value.list| - |l|
  {
    hide Store.Valid, Total, Footprint, Restamped;
    SameRestamps(s.book, {key});
    StampedRestamps(s.book, key, s.policy, s.view[key].expiresAt.Some?);
    EditTwice(s.view, key, s.view[key].(value := List(l)));
    s.ShrinkList(key, l);
    if l == [] {
      s.Purge(key);
    } else {
      var e := EntryOf(s, key);
      s.Replace(key, Some(e), RecOf(e));
    }
  }

  /** Replaces a value by one built anew, without asking for room. */
  method Put(s: Store, key: bytes, e: Entry, v: Option<Value>)
    requires s.Valid() && s.Holds(key, e) && key in s.view && s.view[key] == RecOf(e)
    modifies s
    ensures Edited(s, key, v) && s.popped == old(s.popped)
  {
    hide Structured, Total, Footprint, Restamped;
    SameRestamps(s.book, {key});
    StampedRestamps(s.book, key, s.policy, s.view[key].expiresAt.Some?);
    if v.None? {
      s.Purge(key);
    } else {
      s.Replace(key, Some(e), Rec(v.value, e.expiresAt));
    }
  }

  lemma PopOne(key: bytes, l: items, count: int, left: bool)
    ensures ListPop(map[key := List(l)], key, count, left) ==
              Outcome(OneKey(key, if l == [] then Some(List([])) else Listed(PopRest(l, count, left))),
                      Values(if l == [] then [] else PopOut(l, count, left)))
  {
    assert map[key := List(l)] - {key} == map[];
  }

  lemma PopElse(d: Data, key: bytes, count: int, left: bool)
    requires key in d ==> !d[key].List?
    ensures ListPop(d, key, count, left) == Outcome(d, if key in d then Fail(WrongType) else Values([]))
  {
  }

  lemma RemOne(key: bytes, l: items, count: int, val: bytes)
    ensures ListRem(map[key := List(l)], key, count, val) ==
              Outcome(OneKey(key, if l == [] then Some(List([])) else Listed(Remove(l, count, val))),
                      Num(if l == [] then 0 else |l| - |Remove(l, count, val)|))
  {
    assert map[key := List(l)] - {key} == map[];
  }

  lemma RemElse(d: Data, key: bytes, count: int, val: bytes)
    requires key in d ==> !d[key].List?
    ensures ListRem(d, key, count, val) == Outcome(d, if key in d then Fail(WrongType) else Num(0))
  {
  }

  lemma TrimOne(key: bytes, l: items, start: int, stop: int)
    ensures ListTrim(map[key := List(l)], key, start, stop) ==
              Outcome(OneKey(key, if l == [] then Some(List([])) else Listed(Slice(l, start, stop))), Num(0))
  {
    assert map[key := List(l)] - {key} == map[];
  }

  lemma TrimElse(d: Data, key: bytes, start: int, stop: int)
    requires key in d ==> !d[key].List?
    ensures ListTrim(d, key, start, stop) == Outcome(d, if key in d then Fail(WrongType) else Num(0))
  {
  }

  lemma SetOne(key: bytes, l: items, index: int, val: bytes)
    ensures ListSet(map[key := List(l)], key, index, val) ==
              if l == [] || index >= |l| then Outcome(map[key := List(l)], Fail(IndexRange))
              else Outcome(map[key := List(l[NormalizeIndex(index, |l|) := val])], Num(0))
  {
  }

  lemma SetElse(d: Data, key: bytes, index: int, val: bytes)
    requires key in d ==> !d[key].List?
    ensures ListSet(d, key, index, val) == Outcome(d, Fail(if key in d then WrongType else NoSuchKey))
  {
  }

  /** What an edit of a live key means for a client. */
  lemma ChangedData(view: map<bytes, Rec>, key: bytes, v: Option<Value>, now: int)
    requires Live(view, key, now)
    ensures DataAt(Changed(view, key, v), key, now) == OneKey(key, v)
  {
  }

  method PopList(s: Store, key: bytes, count: int, left: bool) returns (out: items)
    requires s.Valid() && key in s.view && s.view[key].value.List?
    modifies s
    ensures var l := old(s.view)[key].value.list;
      Edited(s, key, if l == [] then Some(List([])) else Listed(PopRest(l, count, left)))
      && out == PopOut(l, count, left) && s.popped == old(s.popped) + |out| && (l == [] ==> out == [])
  {
    hide Store.Valid, PopRest, PopOut, Restamped;
    var e := Access(s, key);
    var l := e.value.list;
    var rest;
    rest, out := PopItems(l, count, left);
    if l != [] {
      ghost var mid := s.book;
      Settle(s, key, rest);
      AgainRestamped(old(s.book), mid, s.book, key);
    }
  }

  method Pop(s: Store, key: bytes, count: int, left: bool, now: int) returns (r: Reply)
    requires s.Valid()
    modifies s
    ensures Proper(s, key, now)
    ensures Elsewhere(s.view, old(s.view), key)
    ensures if r.Fail? then s.book == old(s.book) else Used(s, key)
    ensures Outcome(DataAt(s.view, key, now), r) == ListPop(DataAt(old(s.view), key, now), key, count, left)
    ensures s.popped == old(s.popped) + if r.Values? then |r.vs| else 0
  {
    hide Store.Valid, PopRest, PopOut, ListPop, Restamped;
    SameRestamps(s.book, {key});
    var e := s.Lookup(key, now);
    if e.None? || !e.value.value.List? {
      PopElse(DataAt(old(s.view), key, now), key, count, left);
      return if e.None? then Values([]) else Fail(WrongType);
    }
    ghost var l := e.value.value.list;
    PopOne(key, l, count, left);
    ChangedData(old(s.view), key, if l == [] then Some(List([])) else Listed(PopRest(l, count, left)), now);
    var out := PopList(s, key, count, left);
    r := Values(out);
  }

  method RemList(s: Store, key: bytes, count: int, val: bytes) returns (removed: nat)
    requires s.Valid() && key in s.view && s.view[key].value.List?
    modifies s
    ensures var l := old(s.view)[key].value.list;
      Edited(s, key, if l == [] then Some(List([])) else Listed(Remove(l, count, val)))
      && removed == |l| - |Remove(l, count, val)| && s.popped == old(s.popped) + removed
  {
    hide Store.Valid, Restamped;
    var e := Access(s, key);
    var l := e.value.list;
    var rest;
    rest, removed := RemoveItems(l, count, val);
    if l != [] {
      ghost var mid := s.book;
      Settle(s, key, rest);
      AgainRestamped(old(s.book), mid, s.book, key);
    }
  }

  method LRem(s: Store, key: bytes, count: int, val: bytes, now: int) returns (r: Reply)
    requires s.Valid()
    modifies s
    ensures Proper(s, key, now)
    ensures Elsewhere(s.view, old(s.view), key)
    ensures if r.Fail? then s.book == old(s.book) else Used(s, key)
    ensures Outcome(DataAt(s.view, key, now), r) == ListRem(DataAt(old(s.view), key, now), key, count, val)
    ensures s.popped == old(s.popped) + (if r.Num? then r.n else 0) && (r.Num? ==> r.n >= 0)
  {
    hide Store.Valid, Remove, ListRem, Restamped;
    SameRestamps(s.book, {key});
    var e := s.Lookup(key, now);
    if e.None? || !e.value.value.List? {
      RemElse(DataAt(old(s.view), key, now), key, count, val);
      return if e.None? then Num(0) else Fail(WrongType);
    }
    ghost var l := e.value.value.list;
    RemOne(key, l, count, val);
    ChangedData(old(s.view), key, if l == [] then Some(List([])) else Listed(Remove(l, count, val)), now);
    var removed := RemList(s, key, count, val);
    r := Num(removed);
  }

  method LSet(s: Store, key: bytes, index: int, val: bytes, now: int) returns (r: Reply)
    requires s.Valid()
    modifies s
    ensures Proper(s, key, now) && s.popped == old(s.popped)
    ensures Elsewhere(s.view, old(s.view), key)
    ensures if r.Fail? then s.book == old(s.book) else Used(s, key)
    ensures Outcome(DataAt(s.view, key, now), r) == ListSet(DataAt(old(s.view), key, now), key, index, val)
  {
    hide Store.Valid, ListSet, Restamped;
    SameRestamps(s.book, {key});
    var e := s.Lookup(key, now);
    if e.None? || !e.value.value.List? {
      SetElse(DataAt(old(s.view), key, now), key, index, val);
      return Fail(if e.None? then NoSuchKey else WrongType);
    }
    var l := e.value.value.list;
    SetOne(key, l, index, val);
    var idx := NormalizeIndex(index, |l|);
    if (index >= 0 && index >= |l|) || idx < 0 || idx >= |l| { return Fail(IndexRange); }
    ChangedData(old(s.view), key, Some(List(l[idx := val])), now);
    Settle(s, key, l[idx := val]);
    r := Num(0);
  }

  method TrimList(s: Store, key: bytes, start: int, stop: int)
    requires s.Valid() && key in s.view && s.view[key].value.List?
    modifies s
    ensures s.popped == old(s.popped)
    ensures var l := old(s.view)[key].value.list;
      Edited(s, key, if l == [] then Some(List([])) else Listed(Slice(l, start, stop)))
  {
    hide Store.Valid, Slice, Restamped;
    var e := Access(s, key);
    if e.value.list != [] {
      var l := SliceItems(e.value.list, start, stop);
      ghost var mid := s.book;
      Put(s, key, e, if l == [] then None else Some(List(l)));
      AgainRestamped(old(s.book), mid, s.book, key);
    }
  }

  method LTrim(s: Store, key: bytes, start: int, stop: int, now: int) returns (r: Reply)
    requires s.Valid()
    modifies s
    ensures Proper(s, key, now) && s.popped == old(s.popped)
    ensures Elsewhere(s.view, old(s.view), key)
    ensures if r.Fail? then s.book == old(s.book) else Used(s, key)
    ensures Outcome(DataAt(s.view, key, now), r) == ListTrim(DataAt(old(s.view), key, now), key, start, stop)
  {
    hide Store.Valid, Slice, ListTrim, Restamped;
    SameRestamps(s.book, {key});
    var e := s.Lookup(key, now);
    if e.None? || !e.value.value.List? {
      TrimElse(DataAt(old(s.view), key, now), key, start, stop);
      return if e.None? then Num(0) else Fail(WrongType);
    }
    ghost var l := e.value.value.list;
    TrimOne(key, l, start, stop);
    ChangedData(old(s.view), key, if l == [] then Some(List([])) else Listed(Slice(l, start, stop)), now);
    TrimList(s, key, start, stop);
    r := Num(0);
  }

  lemma InsertOne(key: bytes, l: items, before: bool, pivot: bytes, x: bytes)
    ensures ListInsert(map[key := List(l)], key, before, pivot, x) ==
              Outcome(map[key := List(Insert(l, before, pivot, x))],
                      Num(if pivot in l then |Insert(l, before, pivot, x)| else -1))
  {
  }

  lemma InsertElse(d: Data, key: bytes, before: bool, pivot: bytes, x: bytes)
    requires key in d ==> !d[key].List?
    ensures ListInsert(d, key, before, pivot, x) == Outcome(d, if key in d then Fail(WrongType) else Num(0))
  {
  }

  method InsertList(s: Store, key: bytes, before: bool, pivot: bytes, x: bytes, now: int) returns (n: int, oom: bool)
    requires s.Valid() && key in s.view && s.view[key].value.List?
    modifies s
    ensures s.Valid() && s.Spares(key) && (old(s.clean) ==> s.clean) && s.popped == old(s.popped)
    ensures var l := old(s.view)[key].value.list;
      n == if pivot in l then |Insert(l, before, pivot, x)| else -1
    ensures var l := old(s.view)[key].value.list;
      !oom ==> key in s.view && s.view[key] == old(s.view)[key].(value := List(Insert(l, before, pivot, x)))
    ensures var l := old(s.view)[key].value.list;
      oom ==> pivot in l && s.OnlyEvictions(key)
              && s.RoomRefused(key, Footprint(key, List(Insert(l, before, pivot, x))) - SizeAt(old(s.view), key))
    ensures !oom && s.clean && key != [] ==> s.WithinBudget()
    ensures !oom ==> Used(s, key)
    ensures var l := old(s.view)[key].value.list;
      Roomy(s, key, s.Crowded(old(s.mem), Footprint(key, List(Insert(l, before, pivot, x))) - SizeAt(old(s.view), key)), oom)
  {
    hide Store.Valid, Insert, Restamped, Footprint, Store.NothingLeft, NextInLine, Newer;
    var e := Access(s, key);
    ghost var mid := s.book;
    var found, l := InsertItems(e.value.list, before, pivot, x);
    if !found { return -1, false; }
    var ok := Update(s, key, Some(e), List(l), now);
    AgainRestamped(old(s.book), mid, s.book, key);
    if ok { NewerStill(s.book, key, s.policy, s.view[key].expiresAt.Some?, mid.clock, old(s.book).clock); }
    n, oom := |l|, !ok;
  }

  method LInsert(s: Store, key: bytes, before: bool, pivot: bytes, x: bytes, now: int) returns (r: Reply, oom: bool)
    requires s.Valid()
    modifies s
    ensures Proper(s, key, now) && s.popped == old(s.popped)
    ensures !oom ==> Outcome(DataAt(s.view, key, now), r) == ListInsert(DataAt(old(s.view), key, now), key, before, pivot, x)
    ensures oom ==> Refusal(s, key, ListInsert(DataAt(old(s.view), key, now), key, before, pivot, x).data,
                            LiveSize(old(s.view), key, now))
    ensures oom && key != [] ==> DataAt(s.view, key, now) == DataAt(old(s.view), key, now)
    ensures Roomy(s, key, old(TightFor(s, key, ListInsert(DataAt(s.view, key, now), key, before, pivot, x).data, now)), oom)
    ensures !oom && !r.Fail? ==> Used(s, key)
    ensures !oom && s.clean && (key != [] || key !in old(s.view)) ==> s.WithinBudget()
  {
    hide Store.Valid, Insert, ListInsert, Footprint, Store.NothingLeft, Restamped, NextInLine, Newer;
    SameRestamps(s.book, {key});
    ghost var d := DataAt(old(s.view), key, now);
    var e := s.Lookup(key, now);
    if e.None? || !e.value.value.List? {
      InsertElse(d, key, before, pivot, x);
      return if e.None? then Num(0) else Fail(WrongType), false;
    }
    InsertOne(key, e.value.value.list, before, pivot, x);
    var n;
    n, oom := InsertList(s, key, before, pivot, x, now);
    r := Num(n);
  }

  // ----- hashes and sets: the value is built apart from the store ---------------------------

  function WithFields(e: Option<Entry>, pairs: map<bytes, bytes>): Value
    requires e.Some? ==> e.value.value.Hash?
  {
    Hash((if e.Some? then e.value.value.fields else map[]) + pairs)
  }

  method BuildHash(e: Option<Entry>, pairs: map<bytes, bytes>) returns (v: Value)
    requires e.Some? ==> e.value.value.Hash?
    ensures v == WithFields(e, pairs)
  {
    var h, n := PutFields(if e.Some? then e.value.value.fields else map[], pairs);
    v := Hash(h);
  }

  function WithMembers(e: Option<Entry>, members: items): Value
    requires e.Some? ==> e.value.value.Set?
  {
    Set((if e.Some? then e.value.value.members else {}) + KeySet(members))
  }

  method BuildSet(e: Option<Entry>, members: items) returns (v: Value)
    requires e.Some? ==> e.value.value.Set?
    ensures v == WithMembers(e, members)
  {
    var m, n := AddMembers(if e.Some? then e.value.value.members else {}, members);
    v := Set(m);
  }

  function WithoutNames(v: Value, names: items): Option<Value>
    requires v.Hash? || v.Set?
  {
    if v.Hash? then
      var h := v.fields - KeySet(names);
      if |h| == 0 then None else Some(Hash(h))
    else
      var m := v.members - KeySet(names);
      if |m| == 0 then None else Some(Set(m))
  }

  method DropNames(v: Value, names: items) returns (r: Option<Value>)
    requires v.Hash? || v.Set?
    ensures r == WithoutNames(v, names)
  {
    if v.Hash? {
      var h, n := DropFields(v.fields, names);
      r := if |h| == 0 then None else Some(Hash(h));
    } else {
      var m, n := DropMembers(v.members, names);
      r := if |m| == 0 then None else Some(Set(m));
    }
  }

  lemma HashSetOne(d: Data, key: bytes, e: Option<Entry>, pairs: map<bytes, bytes>)
    requires |pairs| != 0 && (e.Some? ==> e.value.value.Hash?)
    requires d == OneKey(key, if e.Some? then Some(e.value.value) else None)
    ensures HashSet(d, key, pairs) == Outcome(map[key := WithFields(e, pairs)], Done)
  {
  }

  lemma SetAddOne(d: Data, key: bytes, e: Option<Entry>, members: items)
    requires members != [] && (e.Some? ==> e.value.value.Set?)
    requires d == OneKey(key, if e.Some? then Some(e.value.value) else None)
    ensures SetAdd(d, key, members) == Outcome(map[key := WithMembers(e, members)], Done)
  {
  }

  lemma HashDelOne(key: bytes, v: Value, names: items)
    requires v.Hash?
    ensures HashDel(map[key := v], key, names) == Outcome(OneKey(key, WithoutNames(v, names)), Done)
  {
    assert map[key := v] - {key} == map[];
  }

  lemma SetRemOne(key: bytes, v: Value, names: items)
    requires v.Set?
    ensures SetRem(map[key := v], key, names) == Outcome(OneKey(key, WithoutNames(v, names)), Done)
  {
    assert map[key := v] - {key} == map[];
  }

  lemma HashSetWrong(d: Data, key: bytes, pairs: map<bytes, bytes>)
    requires key in d && |pairs| != 0 && !d[key].Hash?
    ensures HashSet(d, key, pairs) == Outcome(d, Fail(WrongType))
  {
  }

  lemma SetAddWrong(d: Data, key: bytes, members: items)
    requires key in d && members != [] && !d[key].Set?
    ensures SetAdd(d, key, members) == Outcome(d, Fail(WrongType))
  {
  }

  lemma HashDelElse(d: Data, key: bytes, names: items)
    requires key in d ==> !d[key].Hash?
    ensures HashDel(d, key, names) == Outcome(d, if key in d then Fail(WrongType) else Done)
  {
  }

  lemma SetRemElse(d: Data, key: bytes, names: items)
    requires key in d ==> !d[key].Set?
    ensures SetRem(d, key, names) == Outcome(d, if key in d then Fail(WrongType) else Done)
  {
  }

  method HSet(s: Store, key: bytes, pairs: map<bytes, bytes>, now: int) returns (r: Reply, oom: bool)
    requires s.Valid()
    modifies s
    ensures Proper(s, key, now) && s.popped == old(s.popped)
    ensures !oom ==> Outcome(DataAt(s.view, key, now), r) == HashSet(DataAt(old(s.view), key, now), key, pairs)
    ensures oom ==> Refusal(s, key, HashSet(DataAt(old(s.view), key, now), key, pairs).data,
                            LiveSize(old(s.view), key, now))
    ensures oom && key != [] ==> DataAt(s.view, key, now) == DataAt(old(s.view), key, now)
    ensures Roomy(s, key, old(TightFor(s, key, HashSet(DataAt(s.view, key, now), key, pairs).data, now)), oom)
    ensures !oom && !r.Fail? && |pairs| != 0 ==> Used(s, key)
    ensures !oom && s.clean && (key != [] || key !in old(s.view)) ==> s.WithinBudget()
  {
    hide Store.Valid;
    if |pairs| == 0 { return Done, false; }
    r, oom := HSetFields(s, key, pairs, now);
  }

  method HSetFields(s: Store, key: bytes, pairs: map<bytes, bytes>, now: int) returns (r: Reply, oom: bool)
    requires s.Valid() && |pairs| != 0
    modifies s
    ensures Proper(s, key, now) && s.popped == old(s.popped)
    ensures !oom ==> Outcome(DataAt(s.view, key, now), r) == HashSet(DataAt(old(s.view), key, now), key, pairs)
    ensures oom ==> Refusal(s, key, HashSet(DataAt(old(s.view), key, now), key, pairs).data,
                            LiveSize(old(s.view), key, now))
    ensures oom && key != [] ==> DataAt(s.view, key, now) == DataAt(old(s.view), key, now)
    ensures Roomy(s, key, old(TightFor(s, key, HashSet(DataAt(s.view, key, now), key, pairs).data, now)), oom)
    ensures !oom && !r.Fail? && |pairs| != 0 ==> Used(s, key)
    ensures !oom && s.clean && (key != [] || key !in old(s.view)) ==> s.WithinBudget()
  {
    hide Store.Valid, HashSet, WithFields, Restamped, Footprint, Store.NothingLeft, NextInLine, Newer;
    SameRestamps(s.book, {key});
    var e := s.Lookup(key, now);
    ghost var d := DataAt(old(s.view), key, now);
    if e.Some? && !e.value.value.Hash? {
      HashSetWrong(d, key, pairs);
      return Fail(WrongType), false;
    }
    HashSetOne(d, key, e, pairs);
    var v := BuildHash(e, pairs);
    var ok := Update(s, key, e, v, now);
    r, oom := Done, !ok;
  }

  method HDel(s: Store, key: bytes, fields: seq<bytes>, now: int) returns (r: Reply)
    requires s.Valid()
    modifies s
    ensures Proper(s, key, now) && s.popped == old(s.popped)
    ensures Elsewhere(s.view, old(s.view), key)
    ensures if r.Fail? then s.book == old(s.book) else Used(s, key)
    ensures Outcome(DataAt(s.view, key, now), r) == HashDel(DataAt(old(s.view), key, now), key, fields)
  {
    hide Store.Valid, HashDel, WithoutNames, Restamped;
    SameRestamps(s.book, {key});
    ghost var d := DataAt(old(s.view), key, now);
    var e := s.Lookup(key, now);
    if e.None? {
      HashDelElse(d, key, fields);
      return Done;
    }
    if !e.value.value.Hash? {
      HashDelElse(d, key, fields);
      return Fail(WrongType);
    }
    HashDelOne(key, e.value.value, fields);
    var v := DropNames(e.value.value, fields);
    Put(s, key, e.value, v);
    r := Done;
  }

  method SAdd(s: Store, key: bytes, members: items, now: int) returns (r: Reply, oom: bool)
    requires s.Valid()
    modifies s
    ensures Proper(s, key, now) && s.popped == old(s.popped)
    ensures !oom ==> Outcome(DataAt(s.view, key, now), r) == SetAdd(DataAt(old(s.view), key, now), key, members)
    ensures oom ==> Refusal(s, key, SetAdd(DataAt(old(s.view), key, now), key, members).data,
                            LiveSize(old(s.view), key, now))
    ensures oom && key != [] ==> DataAt(s.view, key, now) == DataAt(old(s.view), key, now)
    ensures Roomy(s, key, old(TightFor(s, key, SetAdd(DataAt(s.view, key, now), key, members).data, now)), oom)
    ensures !oom && !r.Fail? && members != [] ==> Used(s, key)
    ensures !oom && s.clean && (key != [] || key !in old(s.view)) ==> s.WithinBudget()
  {
    hide Store.Valid;
    if members == [] { return Done, false; }
    r, oom := SAddMembers(s, key, members, now);
  }

  method SAddMembers(s: Store, key: bytes, members: items, now: int) returns (r: Reply, oom: bool)
    requires s.Valid() && members != []
    modifies s
    ensures Proper(s, key, now) && s.popped == old(s.popped)
    ensures !oom ==> Outcome(DataAt(s.view, key, now), r) == SetAdd(DataAt(old(s.view), key, now), key, members)
    ensures oom ==> Refusal(s, key, SetAdd(DataAt(old(s.view), key, now), key, members).data,
                            LiveSize(old(s.view), key, now))
    ensures oom && key != [] ==> DataAt(s.view, key, now) == DataAt(old(s.view), key, now)
    ensures Roomy(s, key, old(TightFor(s, key, SetAdd(DataAt(s.view, key, now), key, members).data, now)), oom)
    ensures !oom && !r.Fail? && members != [] ==> Used(s, key)
    ensures !oom && s.clean && (key != [] || key !in old(s.view)) ==> s.WithinBudget()
  {
    hide Store.Valid, SetAdd, WithMembers, Restamped, Footprint, Store.NothingLeft, NextInLine, Newer;
    SameRestamps(s.book, {key});
    var e := s.Lookup(key, now);
    ghost var d := DataAt(old(s.view), key, now);
    if e.Some? && !e.value.value.Set? {
      SetAddWrong(d, key, members);
      return Fail(WrongType), false;
    }
    SetAddOne(d, key, e, members);
    var v := BuildSet(e, members);
    var ok := Update(s, key, e, v, now);
    r, oom := Done, !ok;
  }

  method SRem(s: Store, key: bytes, members: items, now: int) returns (r: Reply)
    requires s.Valid()
    modifies s
    ensures Proper(s, key, now) && s.popped == old(s.popped)
    ensures Elsewhere(s.view, old(s.view), key)
    ensures if r.Fail? then s.book == old(s.book) else Used(s, key)
    ensures Outcome(DataAt(s.view, key, now), r) == SetRem(DataAt(old(s.view), key, now), key, members)
  {
    hide Store.Valid, SetRem, WithoutNames, Restamped;
    SameRestamps(s.book, {key});
    ghost var d := DataAt(old(s.view), key, now);
    var e := s.Lookup(key, now);
    if e.None? {
      SetRemElse(d, key, members);
      return Done;
    }
    if !e.value.value.Set? {
      SetRemElse(d, key, members);
      return Fail(WrongType);
    }
    SetRemOne(key, e.value.value, members);
    var v := DropNames(e.value.value, members);
    Put(s, key, e.value, v);
    r := Done;
  }

  /** Stores a set over whatever the key holds, even an empty one; the expiry stays. */
  method ReplaceSet(s: Store, key: bytes, members: items, now: int) returns (oom: bool)
    requires s.Valid()
    modifies s
    ensures Proper(s, key, now) && s.popped == old(s.popped)
    ensures !oom ==> key in s.view && s.view[key] == Rec(Set(KeySet(members)), ExpiryAt(old(s.view), key, now))
    ensures oom ==> s.RoomRefused(key, Footprint(key, Set(KeySet(members))) - LiveSize(old(s.view), key, now))
    ensures oom && key != [] ==> DataAt(s.view, key, now) == DataAt(old(s.view), key, now)
    ensures Roomy(s, key, old(Tight(s, key, Set(KeySet(members)), now)), oom)
    ensures !oom ==> Used(s, key)
    ensures !oom && s.clean && (key != [] || key !in old(s.view)) ==> s.WithinBudget()
  {
    hide Store.Valid, Footprint, Store.NothingLeft, NextInLine, Restamped, Newer;
    SameRestamps(s.book, {key});
    var m, n := AddMembers({}, members);
    var e := s.Lookup(key, now);
    var ok := Update(s, key, e, Set(m), now);
    oom := !ok;
  }

  // ----- keys -------------------------------------------------------------------------------

  /** Deletes one key and says whether it was there; DEL repeats this. */
  method DelKey(s: Store, key: bytes, now: int) returns (was: bool)
    requires s.Valid()
    modifies s
    ensures s.Valid() && s.Spares(key) && s.clean == old(s.clean) && s.popped == old(s.popped)
    ensures s.view == old(s.view) - {key} && (was <==> Live(old(s.view), key, now))
    ensures s.book == old(s.book)
  {
    hide Structured, Total, Footprint;
    var e := s.Lookup(key, now);
    if e.None? { return false; }
    s.Purge(key);
    was := true;
  }

  /** Sets the expiry of a live key. */
  method ExpireAt(s: Store, key: bytes, at: int, now: int) returns (ok: bool)
    requires s.Valid()
    modifies s
    ensures s.Valid() && s.Spares(key) && s.clean == old(s.clean) && s.popped == old(s.popped)
    ensures ok <==> Live(old(s.view), key, now)
    ensures s.view == if ok then old(s.view)[key := old(s.view)[key].(expiresAt := Some(at))] else old(s.view) - {key}
    ensures s.book == if ok then Stamped(old(s.book), key, s.policy, true) else old(s.book)
  {
    hide Structured, Total, Footprint;
    var e := s.Lookup(key, now);
    if e.None? { return false; }
    s.Replace(key, e, Rec(e.value.value, Some(at)));
    ok := true;
  }

  /** Takes the expiry off a live key that has one. */
  method Persist(s: Store, key: bytes, now: int) returns (ok: bool)
    requires s.Valid()
    modifies s
    ensures s.Valid() && s.Spares(key) && s.clean == old(s.clean) && s.popped == old(s.popped)
    ensures ok <==> Live(old(s.view), key, now) && old(s.view)[key].expiresAt.Some?
    ensures ok ==> s.view == old(s.view)[key := old(s.view)[key].(expiresAt := None)]
    ensures !ok ==> s.view == if Live(old(s.view), key, now) then old(s.view) else old(s.view) - {key}
    ensures s.book == if ok then Stamped(old(s.book), key, s.policy, false) else old(s.book)
  {
    hide Structured, Total, Footprint;
    var e := s.Lookup(key, now);
    if e.None? { return false; }
    if e.value.expiresAt.None? { return false; }
    s.Replace(key, e, Rec(e.value.value, None));
    ok := true;
  }

  /** Whether a key holds a live entry, without touching it. */
  method IsLive(s: Store, key: bytes, now: int) returns (live: bool)
    requires s.Valid()
    ensures live <==> Live(s.view, key, now)
  {
    hide Structured;
    s.Stored(key);
    var m := s.shards[s.shardOf(key)].m;
    live := key in m && !(m[key].expiresAt.Some? && now > m[key].expiresAt.value);
  }

  /** Takes an entry from one key and puts it under another, over whatever is there. */
  method Relocate(s: Store, src: bytes, dst: bytes, e: Entry)
    requires s.Valid() && src != dst && src in s.view && s.view[src] == RecOf(e)
    modifies s`shards, s`nextId, s`book, s`view, s`mem, s`watch, s`clean
    ensures s.Valid() && s.clean == old(s.clean) && s.SameHistory()
    ensures s.view == (old(s.view) - {src})[dst := old(s.view)[src]]
    ensures s.book == Stamped(old(s.book), dst, s.policy, e.expiresAt.Some?)
    ensures (src in s.watch <==> src in old(s.watch)) && (src in s.watch ==> s.watch[src] == old(s.watch)[src])
  {
    hide Structured, Total, Footprint, Stamped;
    s.Stored(dst);
    if dst in s.shards[s.shardOf(dst)].m {
      s.Purge(dst);
    }
    s.Unstore(src);
    s.Replace(dst, None, RecOf(e));
    assert s.view == (old(s.view) - {src})[dst := old(s.view)[src]];
  }

  /** Moves a live entry to another key, over whatever that key holds. */
  method Rename(s: Store, src: bytes, dst: bytes, now: int) returns (ok: bool)
    requires s.Valid()
    modifies s
    ensures s.Valid() && s.clean == old(s.clean) && s.popped == old(s.popped) && s.policy == old(s.policy)
    ensures s.maxMem == old(s.maxMem) && s.SameHistory()
    ensures ok <==> src == dst || Live(old(s.view), src, now)
    ensures ok && src == dst ==> s.view == old(s.view)
    ensures ok && src != dst ==> s.view == (old(s.view) - {src})[dst := old(s.view)[src]]
    ensures ok && src != dst ==> (src in s.watch <==> src in old(s.watch))
    ensures ok && src != dst && src in s.watch ==> s.watch[src] == old(s.watch)[src]
    ensures !ok ==> s.view == old(s.view) - {src}
    ensures ok && src != dst ==> s.book == Stamped(old(s.book), dst, s.policy, s.view[dst].expiresAt.Some?)
    ensures !ok || src == dst ==> s.book == old(s.book)
  {
    hide Store.Valid, Total, Footprint, Stamped;
    if src == dst { return true; }
    var e := s.Lookup(src, now);
    if e.None? { return false; }
    Relocate(s, src, dst, e.value);
    ok := true;
  }

  /** As a rename, but only to a key that holds nothing. */
  method RenameNX(s: Store, src: bytes, dst: bytes, now: int) returns (ok: bool)
    requires s.Valid()
    modifies s
    ensures s.Valid() && s.clean == old(s.clean) && s.popped == old(s.popped) && s.policy == old(s.policy)
    ensures s.maxMem == old(s.maxMem) && s.SameHistory()
    ensures ok <==> src == dst || (Live(old(s.view), src, now) && !Live(old(s.view), dst, now))
    ensures ok && src == dst ==> s.view == old(s.view)
    ensures ok && src != dst ==> s.view == (old(s.view) - {src})[dst := old(s.view)[src]]
    ensures !ok ==> s.view == if Live(old(s.view), src, now) then old(s.view) else old(s.view) - {src}
    ensures ok && src != dst ==> s.book == Stamped(old(s.book), dst, s.policy, s.view[dst].expiresAt.Some?)
    ensures !ok || src == dst ==> s.book == old(s.book)
  {
    hide Store.Valid, Total, Footprint, Stamped;
    if src == dst { return true; }
    var e := s.Lookup(src, now);
    if e.None? { return false; }
    var taken := IsLive(s, dst, now);
    if taken { return false; }
    Relocate(s, src, dst, e.value);
    ok := true;
  }

  // ----- several keys at once -----------------------------------------------------------------

  /** The entries an MSETNX would store. */
  ghost function Entries(pairs: map<bytes, bytes>): map<bytes, Rec>
  {
    map k | k in pairs :: Rec(Str(pairs[k]), None)
  }

  /** Drops the expired entries of the keys, and adds up what the new ones take. */
  method Weigh(s: Store, pairs: map<bytes, bytes>, now: int) returns (delta: int)
    requires s.Valid() && forall k :: k in pairs ==> !Live(s.view, k, now)
    modifies s
    ensures s.Valid() && s.clean == old(s.clean) && s.popped == old(s.popped)
    ensures s.policy == old(s.policy) && s.maxMem == old(s.maxMem) && s.mem <= old(s.mem)
    ensures s.book == old(s.book)
    ensures s.view == old(s.view) - pairs.Keys
    ensures delta == Total(Entries(pairs))
  {
    hide Store.Valid, Total, Footprint;
    delta := 0;
    var todo := pairs.Keys;
    ghost var done: map<bytes, Rec> := map[];
    EmptyTotal();
    while todo != {}
      invariant s.Valid() && s.clean == old(s.clean) && s.popped == old(s.popped)
      invariant s.policy == old(s.policy) && s.maxMem == old(s.maxMem) && s.mem <= old(s.mem)
      invariant s.book == old(s.book)
      invariant todo <= pairs.Keys && s.view == old(s.view) - (pairs.Keys - todo)
      invariant done.Keys == pairs.Keys - todo && (forall k :: k in done ==> done[k] == Rec(Str(pairs[k]), None))
      invariant delta == Total(done)
    {
      var k :| k in todo;
      var _ := s.Lookup(k, now);
      var n := EstimateMem(k, Str(pairs[k]));
      TotalPut(done, k, Rec(Str(pairs[k]), None));
      done := done[k := Rec(Str(pairs[k]), None)];
      delta := delta + n;
      todo := todo - {k};
      assert s.view == old(s.view) - (pairs.Keys - todo);
    }
    assert done == Entries(pairs);
  }

  /** Entries laid over what is stored. */
  ghost function Laid(view: map<bytes, Rec>, done: map<bytes, Rec>): map<bytes, Rec> { view + done }

  lemma LaidPut(view: map<bytes, Rec>, done: map<bytes, Rec>, k: bytes, r: Rec)
    ensures Laid(view, done)[k := r] == Laid(view, done[k := r])
    ensures k in Laid(view, done) <==> k in view || k in done
  {
  }

  lemma LaidNothing(view: map<bytes, Rec>)
    ensures Laid(view, map[]) == view
  {
  }

  /** Exactly these keys, which do not expire, were stamped anew. */
  ghost predicate AllStamped(b: Book, c: Book, keys: set<bytes>, pol: Policy)
  {
    Restamped(b, c, keys) && forall k :: k in keys ==> Newer(c, k, pol, false, b.clock)
  }

  lemma NoneStamped(b: Book, pol: Policy)
    ensures AllStamped(b, b, {}, pol)
  {
  }

  lemma OneMoreStamped(b: Book, c: Book, keys: set<bytes>, k: bytes, pol: Policy)
    requires AllStamped(b, c, keys, pol)
    ensures AllStamped(b, Stamped(c, k, pol, false), keys + {k}, pol)
  {
    StampedRestamps(c, k, pol, false);
    RestampedTrans(b, c, Stamped(c, k, pol, false), keys, {k});
  }

  /** Stores the new entries; none of the keys holds anything. */
  method WriteAll(s: Store, pairs: map<bytes, bytes>)
    requires s.Valid() && forall k :: k in pairs ==> k !in s.view
    modifies s
    ensures s.Valid() && s.clean == old(s.clean) && s.popped == old(s.popped)
    ensures s.policy == old(s.policy) && s.maxMem == old(s.maxMem)
    ensures s.SameHistory() && AllStamped(old(s.book), s.book, pairs.Keys, s.policy)
    ensures s.view == Laid(old(s.view), Entries(pairs))
    ensures s.clean ==> s.mem == old(s.mem) + Total(Entries(pairs))
  {
    hide Store.Valid, Total, Footprint, Laid, AllStamped, Stamped;
    NoneStamped(s.book, s.policy);
    var todo := pairs.Keys;
    assert pairs.Keys - todo == {};
    ghost var done: map<bytes, Rec> := map[];
    EmptyTotal();
    LaidNothing(s.view);
    while todo != {}
      invariant s.Valid() && s.clean == old(s.clean) && s.popped == old(s.popped)
      invariant s.policy == old(s.policy) && s.maxMem == old(s.maxMem)
      invariant s.SameHistory() && AllStamped(old(s.book), s.book, pairs.Keys - todo, s.policy)
      invariant todo <= pairs.Keys && s.view == Laid(old(s.view), done)
      invariant done.Keys == pairs.Keys - todo && (forall k :: k in done ==> done[k] == Rec(Str(pairs[k]), None))
      invariant s.clean ==> s.mem == old(s.mem) + Total(done)
    {
      var k :| k in todo;
      var r := Rec(Str(pairs[k]), None);
      TotalPut(done, k, r);
      LaidPut(old(s.view), done, k, r);
      OneMoreStamped(old(s.book), s.book, pairs.Keys - todo, k, s.policy);
      s.Replace(k, None, r);
      done := done[k := r];
      assert pairs.Keys - (todo - {k}) == (pairs.Keys - todo) + {k};
      todo := todo - {k};
    }
    assert pairs.Keys - todo == pairs.Keys;
    assert done == Entries(pairs);
  }

  /** MSETNX: all of the keys or none, and only if none of them holds anything. */
  method MSetNX(s: Store, pairs: map<bytes, bytes>, now: int) returns (ok: bool, oom: bool)
    requires s.Valid()
    modifies s
    ensures s.Valid() && s.clean == old(s.clean) && s.popped == old(s.popped)
    ensures s.policy == old(s.policy) && s.maxMem == old(s.maxMem)
    ensures !oom ==> (ok <==> forall k :: k in pairs ==> !Live(old(s.view), k, now))
    ensures ok ==> forall k :: k in pairs ==> k in s.view && s.view[k] == Rec(Str(pairs[k]), None)
    ensures forall k :: k in s.view && !(ok && k in pairs) ==> k in old(s.view) && s.view[k] == old(s.view)[k]
    ensures !ok && !oom ==> s.view == old(s.view)
    ensures s.SameHistory()
    ensures if ok then AllStamped(old(s.book), s.book, pairs.Keys, s.policy) else s.book == old(s.book)
    ensures ok && s.clean && s.maxMem != 0 && pairs != map[] ==> s.mem <= s.Limit()
    ensures s.maxMem == 0 ==> !oom && forall k :: k in old(s.view) && k !in pairs ==> k in s.view
    ensures s.clean && !s.Crowded(Total(old(s.view) - pairs.Keys) + PER_ELEMENT * s.popped, Total(Entries(pairs))) ==>
              !oom && forall k :: k in old(s.view) && k !in pairs ==> k in s.view
    ensures oom ==> !ok && s.RoomRefused([], Total(Entries(pairs)))
  {
    hide Store.Valid, Total, Footprint, Store.NothingLeft, Store.NoneTooMany, NextInLine, AllStamped;
    NoneStamped(s.book, s.policy);
    assert pairs == map[] ==> pairs.Keys == {};
    if pairs == map[] { return true, false; }
    var taken := AnyLive(s, pairs, now);
    if taken { return false, false; }
    var delta := Weigh(s, pairs, now);
    if s.clean { CleanExact(s); }
    EntriesWeigh(pairs);
    var evicted, fits := s.EnsureMemory([], delta);
    if !fits { return false, true; }
    WriteAll(s, pairs);
    ok, oom := true, false;
  }

  lemma EntriesWeigh(pairs: map<bytes, bytes>)
    requires pairs != map[]
    ensures Total(Entries(pairs)) > 0
  {
    var k :| k in pairs;
    TotalAtLeast(Entries(pairs), k);
  }

  method AnyLive(s: Store, pairs: map<bytes, bytes>, now: int) returns (found: bool)
    requires s.Valid()
    ensures found <==> exists k :: k in pairs && Live(s.view, k, now)
  {
    hide Store.Valid;
    var todo := pairs.Keys;
    while todo != {}
      invariant todo <= pairs.Keys && forall k :: k in pairs && k !in todo ==> !Live(s.view, k, now)
    {
      var k :| k in todo;
      var live := IsLive(s, k, now);
      if live { return true; }
      todo := todo - {k};
    }
    found := false;
  }

  /** Where the bound of a write fails: the empty key is also the mark for "nothing to avoid", so
      making room for a longer value of it can evict the value it replaces, and the room already
      counted on is then missing. */
  method EmptyKeyOverrun() returns (s: Store, before: int)
    ensures fresh(s) && s.Valid() && s.clean && s.policy == AllKeysLru
    ensures before < s.mem && s.Limit() < s.mem
  {
    hide Structured, Total;
    s := new Store(_ => 0, AllKeysLru, 200);
    EmptyTotal();
    var short, long: bytes := seq(10, _ => 0), seq(80, _ => 0);
    var w1, oom1 := SetString(s, [], short, None, false, false, 0);
    RoomFor(s, 138);
    assert s.view == map[[] := Rec(Str(short), None)];
    TotalPut(map[], [], Rec(Str(short), None));
    before := s.mem;
    var w2, oom2 := SetString(s, [], long, None, false, false, 0);
    RoomFor(s, 70);
    assert s.view == map[[] := Rec(Str(long), None)];
    TotalPut(map[], [], Rec(Str(long), None));
  }

  /** Exactly when it fails, where nothing else is stored: the new value is longer than the one it
      replaces and by itself above the limit, while what it adds is not. */
  method EmptyKeyAlone(s: Store, val: bytes, exp: Option<int>, now: int) returns (wrote: bool, oom: bool)
    requires s.Valid() && s.clean && s.popped == 0 && s.maxMem != 0
    requires s.policy == AllKeysLru && s.book.everAll && s.view.Keys == {[]} && Live(s.view, [], now)
    modifies s
    ensures var was, size := SizeAt(old(s.view), []), Footprint([], Str(val));
      && (wrote <==> size <= was || size - was <= s.Limit())
      && (wrote ==> (s.WithinBudget() <==> !(size > was && size > s.Limit())))
  {
    hide Store.Valid, Total, Footprint, NextInLine, Store.NothingLeft, Restamped, Stamped;
    ghost var was, size := SizeAt(s.view, []), Footprint([], Str(val));
    AloneCounts(s);
    s.SoleNext([]);
    wrote, oom := SetString(s, [], val, exp, false, false, now);
    if oom && size - was <= s.Limit() { RoomFor(s, size - was); }
    if wrote { AloneCounts(s); }
  }

  lemma AloneCounts(s: Store)
    requires s.Valid() && s.clean && s.popped == 0 && s.view.Keys == {[]}
    ensures s.mem == SizeAt(s.view, [])
  {
    hide Structured, Total, Footprint;
    EmptyTotal();
    TotalPut(map[], [], s.view[[]]);
    assert map[[] := s.view[[]]] == s.view;
  }

  lemma RoomFor(s: Store, delta: int)
    requires s.Valid() && s.book.everAll && s.policy == AllKeysLru && s.clean && s.popped == 0
    requires delta <= s.Limit() && forall k :: k in s.view ==> k == []
    ensures !s.RoomRefused([], delta)
  {
    hide Total;
    EmptyTotal();
    if [] in s.view {
      s.HasVictim([]);
    } else {
      assert s.view == map[];
    }
  }

  /** A store with one lasting key and one that expires at 0. */
  method TwoKeys(other: bytes, key: bytes) returns (s: Store)
    requires other != key
    ensures fresh(s) && s.Valid() && s.clean && s.maxMem == 0
    ensures s.view == map[other := Rec(Str([]), None), key := Rec(Str([]), Some(0))]
    ensures s.mem == Footprint(other, Str([])) + Footprint(key, Str([]))
  {
    hide Structured, Total, Footprint;
    s := new Store(_ => 0, NoEviction, 0);
    EmptyTotal();
    var w1, oom1 := SetString(s, other, [], None, false, false, 0);
    ghost var one: map<bytes, Rec> := map[other := Rec(Str([]), None)];
    assert s.view == one;
    TotalPut(map[], other, Rec(Str([]), None));
    var w2, oom2 := SetString(s, key, [], Some(0), false, false, 0);
    TotalPut(one, key, Rec(Str([]), Some(0)));
    assert s.view == one[key := Rec(Str([]), Some(0))];
  }

  lemma StaleMiscounts(f: Facts, key: bytes)
    requires f.maxMem == 0 && key in f.view && f.view[key].expiresAt == Some(0) && f.mem > SizeAt(f.view, key)
    ensures Miscounts(f, key, 1, 1)
  {
  }

  /** Where the counter stops being exact: an increment of a key that has expired but is still
      stored, while another key is stored too. */
  method StaleIncrement(other: bytes, key: bytes) returns (s: Store)
    requires other != key
    ensures fresh(s) && s.Valid() && !Exact(FactsOf(s))
  {
    assert Footprint(other, Str([])) > 0;
    hide Store.Valid, Total, Footprint, Exact, Incremented, FormatInt, Miscounts, Store.NothingLeft;
    s := TwoKeys(other, key);
    StaleMiscounts(FactsOf(s), key);
    var r, oom := IncrBy(s, key, 1, 1);
  }

  // ----- whole runs -------------------------------------------------------------------------

  datatype Op =
    | GetOp(key: bytes)
    | SetOp(key: bytes, val: bytes, exp: Option<int>, nx: bool, xx: bool)
    | IncrOp(key: bytes, delta: int64)
    | PushOp(key: bytes, vals: items, left: bool, mustExist: bool)
    | PopOp(key: bytes, count: int, left: bool)
    | LSetOp(key: bytes, index: int, val: bytes)
    | LRemOp(key: bytes, count: int, val: bytes)
    | LTrimOp(key: bytes, start: int, stop: int)
    | LInsertOp(key: bytes, before: bool, pivot: bytes, x: bytes)
    | HSetOp(key: bytes, pairs: map<bytes, bytes>)
    | HDelOp(key: bytes, names: items)
    | SAddOp(key: bytes, names: items)
    | SRemOp(key: bytes, names: items)
    | DelOp(key: bytes)
    | ExpireOp(key: bytes, at: int)
    | PersistOp(key: bytes)
    | RenameOp(src: bytes, dst: bytes)
    | RenameNXOp(src: bytes, dst: bytes)
    | ReplaceSetOp(key: bytes, names: items)
    | MSetNXOp(pairs: map<bytes, bytes>)
    | FlushOp
    | ExpireCycle(key: bytes)
    | PolicyOp(policy: Policy)
    | MaxMemoryOp(limit: nat)

  /** The operations after which the counter is no longer exact. */
  ghost predicate Loses(f: Facts, op: Op, now: int)
  {
    op.IncrOp? && Miscounts(f, op.key, op.delta, now)
  }

  /** The list elements an operation removes in place, without taking them off the counter. */
  ghost function Unbooked(view: map<bytes, Rec>, op: Op, now: int): nat
  {
    match op
    case PopOp(key, count, left) =>
      var r := ListPop(DataAt(view, key, now), key, count, left).reply;
      if r.Values? then |r.vs| else 0
    case LRemOp(key, count, val) =>
      var r := ListRem(DataAt(view, key, now), key, count, val).reply;
      if r.Num? then NonNegative(r.n) else 0
    case _ => 0
  }

  /** The keys an operation may use. */
  function KeysOf(op: Op): set<bytes>
  {
    match op
    case RenameOp(src, dst) => {dst}
    case RenameNXOp(src, dst) => {dst}
    case MSetNXOp(pairs) => pairs.Keys
    case FlushOp => {}
    case ExpireCycle(_) => {}
    case PolicyOp(_) => {}
    case MaxMemoryOp(_) => {}
    case DelOp(_) => {}
    case _ => {op.key}
  }

  /** The record of policies after an operation. */
  ghost predicate HistoryKept(b: Book, c: Book, op: Op)
  {
    && (c.everAll <==> b.everAll && (op.PolicyOp? ==> op.policy == AllKeysLru))
    && (c.everVol <==> b.everVol && (op.PolicyOp? ==> op.policy == VolatileLru))
  }

  /** One operation, dispatched. */
  method Perform(s: Store, op: Op, now: int)
    requires s.Valid()
    modifies s
    ensures s.Valid()
    ensures old(s.clean) ==> (s.clean <==> !Loses(old(FactsOf(s)), op, now))
    ensures old(s.clean) ==> (s.clean <==> Exact(FactsOf(s)))
    ensures s.popped == old(s.popped) + Unbooked(old(s.view), op, now)
    ensures s.policy == if op.PolicyOp? then op.policy else old(s.policy)
    ensures s.maxMem == if op.MaxMemoryOp? then op.limit else old(s.maxMem)
    ensures HistoryKept(old(s.book), s.book, op) && Restamped(old(s.book), s.book, KeysOf(op))
  {
    hide Store.Valid, Total, Footprint, Exact, Miscounts, Proper, Refusal, Restamped, Stamped, NextInLine;
    if op.IncrOp? {
      var _, _ := IncrBy(s, op.key, op.delta, now);
    } else {
      PerformOther(s, op, now);
    }
    if s.clean { CleanExact(s); }
  }

  /** All but the increments keep the counter exact. */
  method PerformOther(s: Store, op: Op, now: int)
    requires s.Valid() && !op.IncrOp?
    modifies s
    ensures s.Valid() && (old(s.clean) ==> s.clean)
    ensures s.popped == old(s.popped) + Unbooked(old(s.view), op, now)
    ensures s.policy == if op.PolicyOp? then op.policy else old(s.policy)
    ensures s.maxMem == if op.MaxMemoryOp? then op.limit else old(s.maxMem)
    ensures HistoryKept(old(s.book), s.book, op) && Restamped(old(s.book), s.book, KeysOf(op))
  {
    hide Store.Valid, Footprint, Restamped, ListPop, ListRem;
    if op.PopOp? || op.LRemOp? {
      PerformShrinking(s, op, now);
    } else if op.RenameOp? || op.RenameNXOp? {
      RenameStamped(s, op.src, op.dst, now, op.RenameNXOp?);
    } else if op.MSetNXOp? {
      MSetStamped(s, op.pairs, now);
    } else if op.FlushOp? || op.DelOp? || op.ExpireCycle? || op.PolicyOp? || op.MaxMemoryOp? {
      PerformWithoutUse(s, op, now);
    } else {
      PerformOnKey(s, op, now);
    }
  }

  /** The operations that remove list elements in place. */
  method PerformShrinking(s: Store, op: Op, now: int)
    requires s.Valid() && (op.PopOp? || op.LRemOp?)
    modifies s
    ensures s.Valid() && (old(s.clean) ==> s.clean)
    ensures s.popped == old(s.popped) + Unbooked(old(s.view), op, now)
    ensures s.policy == old(s.policy) && s.maxMem == old(s.maxMem)
    ensures s.SameHistory() && Restamped(old(s.book), s.book, {op.key})
  {
    hide Store.Valid, Footprint, Restamped, Newer, Elsewhere, ListPop, ListRem;
    match op {
      case PopOp(key, count, left) => var _ := Pop(s, key, count, left, now);
      case LRemOp(key, count, val) => var _ := LRem(s, key, count, val, now);
    }
  }

  /** The operations that use no key. */
  method PerformWithoutUse(s: Store, op: Op, now: int)
    requires s.Valid() && (op.FlushOp? || op.DelOp? || op.ExpireCycle? || op.PolicyOp? || op.MaxMemoryOp?)
    modifies s
    ensures s.Valid() && s.clean == old(s.clean) && s.popped == old(s.popped)
    ensures s.policy == if op.PolicyOp? then op.policy else old(s.policy)
    ensures s.maxMem == if op.MaxMemoryOp? then op.limit else old(s.maxMem)
    ensures HistoryKept(old(s.book), s.book, op) && Restamped(old(s.book), s.book, {})
  {
    hide Store.Valid, Footprint, Restamped;
    SameRestamps(s.book, {});
    match op {
      case FlushOp => s.FlushDB();
      case DelOp(key) => var _ := DelKey(s, key, now);
      case ExpireCycle(key) => var _ := s.Lookup(key, now);
      case PolicyOp(p) =>
        PolicyRestamps(s.book, p);
        s.SetPolicy(p);
      case MaxMemoryOp(n) => s.SetMaxMemory(n);
    }
  }

  lemma PolicyRestamps(b: Book, p: Policy)
    ensures Restamped(b, b.(everAll := b.everAll && p == AllKeysLru, everVol := b.everVol && p == VolatileLru), {})
  {
  }

  method RenameStamped(s: Store, src: bytes, dst: bytes, now: int, nx: bool)
    requires s.Valid()
    modifies s
    ensures s.Valid() && s.clean == old(s.clean) && s.popped == old(s.popped) && s.policy == old(s.policy)
    ensures s.maxMem == old(s.maxMem) && s.SameHistory() && Restamped(old(s.book), s.book, {dst})
  {
    hide Store.Valid, Footprint, Restamped, Stamped;
    SameRestamps(s.book, {dst});
    StampedRestamps(s.book, dst, s.policy, true);
    StampedRestamps(s.book, dst, s.policy, false);
    if nx {
      var _ := RenameNX(s, src, dst, now);
    } else {
      var _ := Rename(s, src, dst, now);
    }
  }

  method MSetStamped(s: Store, pairs: map<bytes, bytes>, now: int)
    requires s.Valid()
    modifies s
    ensures s.Valid() && s.clean == old(s.clean) && s.popped == old(s.popped) && s.policy == old(s.policy)
    ensures s.maxMem == old(s.maxMem) && s.SameHistory() && Restamped(old(s.book), s.book, pairs.Keys)
  {
    hide Store.Valid, Footprint, Restamped, Newer;
    SameRestamps(s.book, pairs.Keys);
    var _, _ := MSetNX(s, pairs, now);
  }

  /** The operations on one key that leave nothing off the counter. */
  method PerformOnKey(s: Store, op: Op, now: int)
    requires s.Valid() && KeysOf(op) != {} && !op.IncrOp? && !op.PopOp? && !op.LRemOp?
    requires !op.RenameOp? && !op.RenameNXOp? && !op.MSetNXOp?
    modifies s
    ensures s.Valid() && (old(s.clean) ==> s.clean) && s.popped == old(s.popped)
    ensures s.policy == old(s.policy) && s.maxMem == old(s.maxMem)
    ensures s.SameHistory() && Restamped(old(s.book), s.book, {op.key})
  {
    hide Store.Valid, Footprint, Restamped, Stamped, NextInLine, Newer, Elsewhere;
    match op {
      case GetOp(key) => var _ := Get(s, key, now);
      case SetOp(key, val, exp, nx, xx) => var _, _ := SetString(s, key, val, exp, nx, xx, now);
      case PushOp(key, vals, left, mustExist) => var _, _ := Push(s, key, vals, left, mustExist, now);
      case LSetOp(key, index, val) => var _ := LSet(s, key, index, val, now);
      case LTrimOp(key, start, stop) => var _ := LTrim(s, key, start, stop, now);
      case LInsertOp(key, before, pivot, x) => var _, _ := LInsert(s, key, before, pivot, x, now);
      case HSetOp(key, pairs) => var _, _ := HSet(s, key, pairs, now);
      case HDelOp(key, names) => var _ := HDel(s, key, names, now);
      case SAddOp(key, names) => var _, _ := SAdd(s, key, names, now);
      case SRemOp(key, names) => var _ := SRem(s, key, names, now);
      case ExpireOp(key, at) => var _ := ExpireAt(s, key, at, now);
      case PersistOp(key) => var _ := Persist(s, key, now);
      case ReplaceSetOp(key, names) => var _ := ReplaceSet(s, key, names, now);
    }
  }

  /** One step of a run, as far as the counter's blind spot and the order of use go. */
  ghost predicate StepOf(f: Facts, g: Facts, op: Op, now: int)
  {
    && g.popped == f.popped + Unbooked(f.view, op, now)
    && HistoryKept(f.book, g.book, op) && Restamped(f.book, g.book, KeysOf(op))
  }

  /** Conservation over every run: the counter is the booked size of all entries plus 32 bytes per
      list element removed in place, after each operation, if and only if no increment took an
      expired entry off it twice. `at` is what the counter and the data were in between. The record
      of who was used when moves, step by step, only for the keys of the operation, and a policy
      counts as always in force if and only if every change of policy chose it. */
  method Run(s: Store, ops: seq<(Op, int)>) returns (ghost at: seq<Facts>)
    requires s.Valid()
    modifies s
    ensures s.Valid()
    ensures |at| == |ops| + 1 && at[0] == old(FactsOf(s)) && at[|ops|] == FactsOf(s)
    ensures forall i :: 0 <= i < |ops| ==> StepOf(at[i], at[i + 1], ops[i].0, ops[i].1)
    ensures s.popped == old(s.popped) + AllUnbooked(at[..|ops|], ops)
    ensures old(s.clean) ==>
              ((forall i :: 0 <= i <= |ops| ==> Exact(at[i]))
               <==> forall i :: 0 <= i < |ops| ==> !Loses(at[i], ops[i].0, ops[i].1))
    ensures old(s.clean) && (forall i :: 0 <= i < |ops| ==> !ops[i].0.IncrOp?) ==> Exact(FactsOf(s))
    ensures s.book.everAll <==> old(s.book).everAll && AlwaysChose(ops, AllKeysLru)
    ensures s.book.everVol <==> old(s.book).everVol && AlwaysChose(ops, VolatileLru)
  {
    hide Store.Valid, Exact, Miscounts, Restamped, Unbooked, AlwaysChose, StepOf;
    at := [FactsOf(s)];
    if s.clean { CleanExact(s); }
    ghost var exact := old(s.clean);
    for i := 0 to |ops|
      invariant s.Valid()
      invariant |at| == i + 1 && at[0] == old(FactsOf(s)) && at[i] == FactsOf(s)
      invariant forall j :: 0 <= j < i ==> StepOf(at[j], at[j + 1], ops[j].0, ops[j].1)
      invariant exact ==> s.clean && forall j :: 0 <= j <= i ==> Exact(at[j])
      invariant exact <==> old(s.clean) && forall j :: 0 <= j < i ==> !Loses(at[j], ops[j].0, ops[j].1)
      invariant old(s.clean) && !exact ==> exists j :: 0 <= j <= i && !Exact(at[j])
    {
      ghost var before := FactsOf(s);
      Perform(s, ops[i].0, ops[i].1);
      exact := exact && s.clean;
      IsStep(before, FactsOf(s), ops[i].0, ops[i].1);
      at := at + [FactsOf(s)];
    }
    RunTotals(at, ops);
    if exact { assert Exact(at[|ops|]); }
  }

  lemma IsStep(f: Facts, g: Facts, op: Op, now: int)
    requires g.popped == f.popped + Unbooked(f.view, op, now)
    requires HistoryKept(f.book, g.book, op) && Restamped(f.book, g.book, KeysOf(op))
    ensures StepOf(f, g, op, now)
  {
  }

  /** What the steps add up to. */
  lemma {:induction false} RunTotals(at: seq<Facts>, ops: seq<(Op, int)>)
    requires |at| == |ops| + 1
    requires forall i :: 0 <= i < |ops| ==> StepOf(at[i], at[i + 1], ops[i].0, ops[i].1)
    ensures at[|ops|].popped == at[0].popped + AllUnbooked(at[..|ops|], ops)
    ensures at[|ops|].book.everAll <==> at[0].book.everAll && AlwaysChose(ops, AllKeysLru)
    ensures at[|ops|].book.everVol <==> at[0].book.everVol && AlwaysChose(ops, VolatileLru)
    decreases |ops|
  {
    hide Restamped, Unbooked;
    if ops != [] {
      var n := |ops| - 1;
      var was := at[..n + 1];
      RunTotals(was, ops[..n]);
      assert was[..n] == at[..n + 1][..n] == at[..n];
      assert StepOf(at[n], at[n + 1], ops[n].0, ops[n].1);
      ChoseSnoc(ops, AllKeysLru);
      ChoseSnoc(ops, VolatileLru);
    }
  }

  /** Every change of policy chose this one. */
  ghost predicate AlwaysChose(ops: seq<(Op, int)>, p: Policy)
  {
    forall i :: 0 <= i < |ops| && ops[i].0.PolicyOp? ==> ops[i].0.policy == p
  }

  lemma ChoseSnoc(ops: seq<(Op, int)>, p: Policy)
    requires ops != []
    ensures var n := |ops| - 1;
      AlwaysChose(ops, p) <==> AlwaysChose(ops[..n], p) && (ops[n].0.PolicyOp? ==> ops[n].0.policy == p)
  {
    var n := |ops| - 1;
    var was := ops[..n];
    assert forall j :: 0 <= j < n ==> ops[j] == was[j];
  }

  /** The list elements removed in place over a run. */
  ghost function AllUnbooked(at: seq<Facts>, ops: seq<(Op, int)>): nat
    requires |at| == |ops|
  {
    if ops == [] then 0
    else
      var n := |ops| - 1;
      AllUnbooked(at[..n], ops[..n]) + Unbooked(at[n].view, ops[n].0, ops[n].1)
  }
}
