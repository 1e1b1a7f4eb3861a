/** Pulling a snapshot from the first source that delivers a whole one. */
module Failover {
  import opened Bytes
  import opened Keyspace
  import opened Snapshot

  /** What a snapshot connection can yield; running out of frames is a read error. */
  datatype Frame = Chunk(e: Entry) | Garbled | Done | Unexpected | Cancelled

  /** One configured address and the stream it delivers, `None` when it cannot be reached. */
  datatype Source = Source(addr: bytes, stream: Option<seq<Frame>>)

  /** The entries of a stream that reaches its end marker intact. */
  function Whole(frames: seq<Frame>): Option<seq<Entry>>
    decreases |frames|
  {
    if frames == [] then None
    else
      match frames[0]
      case Done => Some([])
      case Chunk(e) =>
        var rest := Whole(frames[1..]);
        if rest.None? then None else Some([e] + rest.value)
      case _ => None
  }

  /** The data a source stands for: its whole stream loaded into an empty store. */
  function Delivers(s: Source): Option<Data>
  {
    if s.stream.None? || Whole(s.stream.value).None? then None
    else LoadAll(map[], Whole(s.stream.value).value)
  }

  predicate Usable(s: Source) { TrimSpace(s.addr) != [] }

  /** What the rest of a stream would make of the store, with a batch still to be flushed. */
  function Outcome(d: Data, batch: seq<Entry>, frames: seq<Frame>): Option<Data>
  {
    var rest := Whole(frames);
    if rest.None? then None else LoadAll(d, batch + rest.value)
  }

  lemma ChunkStep(d: Data, batch: seq<Entry>, frames: seq<Frame>)
    requires frames != [] && frames[0].Chunk?
    ensures Outcome(d, batch, frames) == Outcome(d, batch + [frames[0].e], frames[1..])
  {
    var rest := Whole(frames[1..]);
    if rest.Some? {
      assert batch + ([frames[0].e] + rest.value) == batch + [frames[0].e] + rest.value;
    }
  }

  lemma FlushStep(d: Data, batch: seq<Entry>, frames: seq<Frame>)
    ensures LoadAll(d, batch).None? ==> Outcome(d, batch, frames) == None
    ensures LoadAll(d, batch).Some? ==> Outcome(d, batch, frames) == Outcome(LoadAll(d, batch).value, [], frames)
  {
    var rest := Whole(frames);
    if rest.Some? {
      LoadAllConcat(d, batch, rest.value);
      assert [] + rest.value == rest.value;
    }
  }

  /** One attempt: the store is emptied and filled batch by batch. It succeeds exactly when the
      source delivers, whatever the batch depth. */
  method PullOnce(db: Database, source: Source, depth: int) returns (ok: bool)
    modifies db
    ensures ok <==> Delivers(source).Some?
    ensures ok ==> Some(db.data) == Delivers(source)
  {
    if source.stream.None? { return false; }
    var frames := source.stream.value;
    db.FlushDB();
    var size := if depth < 1 then 1 else depth;
    var batch: seq<Entry> := [];
    var i := 0;
    assert frames[0..] == frames;
    assert Outcome(db.data, batch, frames[0..]) == Delivers(source) by {
      if Whole(frames).Some? { assert [] + Whole(frames).value == Whole(frames).value; }
    }
    while i < |frames|
      invariant 0 <= i <= |frames| && |batch| < size
      invariant Outcome(db.data, batch, frames[i..]) == Delivers(source)
    {
      assert frames[i..][1..] == frames[i + 1..];
      match frames[i] {
        case Done =>
          assert batch + [] == batch;
          ok := LoadBatch(db, batch);
          return;
        case Chunk(e) =>
          ChunkStep(db.data, batch, frames[i..]);
          batch := batch + [e];
          if |batch| >= size {
            FlushStep(db.data, batch, frames[i + 1..]);
            var flushed := LoadBatch(db, batch);
            if !flushed { return false; }
            batch := [];
          }
        case _ => return false;
      }
      i := i + 1;
    }
    var _ := LoadBatch(db, batch);
    ok := false;
  }

  /** The first usable source that delivers, if any. */
  ghost predicate FirstGood(sources: seq<Source>, i: nat)
  {
    && i < |sources| && Usable(sources[i]) && Delivers(sources[i]).Some?
    && forall j :: 0 <= j < i && Usable(sources[j]) ==> Delivers(sources[j]).None?
  }

  datatype Verdict = Loaded | AllFailed | NoSources

  /** Tries the sources in order. Afterwards the store holds the whole of one source and nothing
      else, or nothing at all; it is left alone only when there was no source to try. */
  method PullFailover(db: Database, sources: seq<Source>, depth: int) returns (v: Verdict)
    modifies db
    ensures v == Loaded <==> exists i :: FirstGood(sources, i)
    ensures v == Loaded ==> exists i: nat :: FirstGood(sources, i) && Some(db.data) == Delivers(sources[i])
    ensures v == AllFailed ==> db.data == map[]
    ensures v == NoSources <==> forall s :: s in sources ==> !Usable(s)
    ensures v == NoSources ==> db.data == old(db.data)
  {
    var tried := false;
    for i := 0 to |sources|
      invariant forall j :: 0 <= j < i && Usable(sources[j]) ==> Delivers(sources[j]).None?
      invariant tried <==> exists j :: 0 <= j < i && Usable(sources[j])
      invariant db.data == if tried then map[] else old(db.data)
    {
      if TrimSpace(sources[i].addr) != [] {
        var ok := PullOnce(db, sources[i], depth);
        if ok {
          assert FirstGood(sources, i);
          return Loaded;
        }
        tried := true;
        db.FlushDB();
      }
    }
    assert !exists i :: FirstGood(sources, i);
    v := if tried then AllFailed else NoSources;
  }
}
