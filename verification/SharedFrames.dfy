/** The shared-frame read (`diff_shared_frames` in `src/engine/mod.rs`): the same walk as
    `diff`, with record frames taken from the cache where it has them. */
module SharedFrames {
  import opened Common
  import E = Eviction
  import opened Reader
  import B = BroadcastCache

  /** A serialized record frame: the projection of a record its variant asks for. */
  datatype Frame = Frame(s: int, ts: int, node: Option<string>, tag: Option<string>, data: Option<string>,
      meta: Option<string>)

  function Serialize(o: Out, v: B.Variant): Frame {
    Frame(o.s, o.item.ts, o.item.node, if v.tags then o.item.tag else None,
          if v.data then Some(o.item.data) else None, if v.meta then o.item.meta else None)
  }

  /** The frame shows the record's seq, time and node, and of its tag, data and metadata exactly what
      the variant asks for. */
  ghost predicate Shows(f: Frame, o: Out, v: B.Variant) {
    && f.s == o.s && f.ts == o.item.ts && f.node == o.item.node
    && (v.tags ==> f.tag == o.item.tag) && (!v.tags ==> f.tag == None)
    && (v.data ==> f.data == Some(o.item.data)) && (!v.data ==> f.data == None)
    && (v.meta ==> f.meta == o.item.meta) && (!v.meta ==> f.meta == None)
  }

  /** Every cached frame is the serialization of the topic's record. */
  ghost predicate Faithful(t: Topic, frames: map<nat, map<nat, Frame>>) {
    forall s, v :: s in frames && B.Bits(v) in frames[s] ==>
      t.base <= s <= Head(t) && frames[s][B.Bits(v)] == Serialize(Out(s, t.items[s - t.base]), v)
  }

  /** Appends and deletes leave cached frames faithful: a record's frame never changes. */
  lemma StaysFaithful(t: Topic, t1: Topic, frames: map<nat, map<nat, Frame>>)
    requires Faithful(t, frames) && t1.base == t.base && |t.items| <= |t1.items|
    requires forall i :: 0 <= i < |t.items| ==> t1.items[i] == t.items[i].(deleted := t1.items[i].deleted)
    ensures Faithful(t1, frames)
  {
    forall s, v | s in frames && B.Bits(v) in frames[s]
      ensures t1.base <= s <= Head(t1) && frames[s][B.Bits(v)] == Serialize(Out(s, t1.items[s - t1.base]), v)
    {
      assert t1.items[s - t.base] == t.items[s - t.base].(deleted := t1.items[s - t.base].deleted);
    }
  }

  function Seqs(records: seq<Out>): seq<int> {
    if records == [] then [] else Seqs(records[..|records| - 1]) + [records[|records| - 1].s]
  }

  lemma {:induction false} SeqsAt(records: seq<Out>, i: nat)
    requires i < |records|
    ensures |Seqs(records)| == |records| && Seqs(records)[i] == records[i].s
  {
    var n := |records| - 1;
    if n > 0 { SeqsAt(records[..n], if i < n then i else 0); }
  }

  lemma SeqsSnoc(records: seq<Out>, o: Out)
    ensures Seqs(records + [o]) == Seqs(records) + [o.s]
  {
    assert (records + [o])[..|records|] == records;
  }

  /** The walk, collecting seqs only; `r` is the answer of the plain read. */
  method WalkSeqs(t: Topic, req: Request, now: int) returns (seqs: seq<nat>, next: int, ghost r: Response)
    ensures Answers(t, req, now, r) && seqs == Seqs(r.records) && |seqs| == |r.records| && next == r.next
  {
    var limit, maxBytes, head := Limit(req), Budget(req), Head(t);
    var cursor := Resume(t, req.from).0;
    var batchBytes := 0;
    seqs, next := [], cursor;
    var s := cursor + 1;
    ghost var records: seq<Out> := [];
    while s <= head && |seqs| < limit
      invariant s == next + 1 && Walking(t, req, now, records, next) && batchBytes == Bytes(records)
      invariant seqs == Seqs(records) && |seqs| == |records|
      decreases head - s
    {
      var item := Get(t, s);
      if item.None? {
        WalkPast(t, req, now, records, next);
        next, s := s, s + 1;
        continue;
      }
      if Evaluate(req.nodes, t.ttl, now, item.value) == Deliver {
        if seqs != [] && batchBytes + item.value.bytes > maxBytes {
          break;
        }
        WalkOver(t, req, now, records, next, Out(s, item.value));
        SeqsSnoc(records, Out(s, item.value));
        batchBytes := batchBytes + item.value.bytes;
        seqs := seqs + [s];
        records := records + [Out(s, item.value)];
      } else {
        WalkPast(t, req, now, records, next);
      }
      next, s := s, s + 1;
    }
    r := Answer(t, req, records, next);
  }

  /** A cached frame, or a fresh one that is then cached. */
  method FrameOf(cache: B.Cache<Frame>, t: Topic, s: nat, v: B.Variant) returns (f: Frame)
    requires cache.Valid() && Faithful(t, cache.frames) && t.base <= s <= Head(t)
    modifies cache
    ensures cache.Valid() && Faithful(t, cache.frames) && f == Serialize(Out(s, t.items[s - t.base]), v)
  {
    if cache.Get(s, B.Bits(v)).Some? {
      return cache.Get(s, B.Bits(v)).value;
    }
    ghost var was := cache.frames;
    f := cache.InsertSerialized(s, B.Bits(v), Serialize(Out(s, t.items[s - t.base]), v));
    InsertKeepsFaithful(t, was, cache.frames, s, v);
  }

  lemma InsertKeepsFaithful(t: Topic, was: map<nat, map<nat, Frame>>, frames: map<nat, map<nat, Frame>>, s: nat,
      v: B.Variant)
    requires Faithful(t, was) && t.base <= s <= Head(t)
    requires forall x, u :: x in frames && u in frames[x] ==>
               if x == s && u == B.Bits(v) then frames[x][u] == Serialize(Out(s, t.items[s - t.base]), v)
               else x in was && u in was[x] && frames[x][u] == was[x][u]
    ensures Faithful(t, frames)
  {
    forall x, u | x in frames && B.Bits(u) in frames[x]
      ensures t.base <= x <= Head(t) && frames[x][B.Bits(u)] == Serialize(Out(x, t.items[x - t.base]), u)
    {
      B.BitsAreDistinct(u, v);
    }
  }

  /** The records are the topic's, at these seqs. */
  ghost predicate RecordsAt(t: Topic, seqs: seq<nat>, records: seq<Out>) {
    && |seqs| == |records|
    && forall i :: 0 <= i < |records| ==>
         records[i].s == seqs[i] && t.base <= seqs[i] <= Head(t) && records[i].item == t.items[seqs[i] - t.base]
  }

  lemma DeliveredRecordsAt(t: Topic, req: Request, now: int, lo: int, hi: int, seqs: seq<nat>)
    requires seqs == Seqs(Delivered(t, req, now, lo, hi)) && |seqs| == |Delivered(t, req, now, lo, hi)|
    ensures RecordsAt(t, seqs, Delivered(t, req, now, lo, hi))
  {
    var d := Delivered(t, req, now, lo, hi);
    DeliveredAscends(t, req, now, lo, hi);
    forall i | 0 <= i < |d|
        ensures d[i].s == seqs[i] && t.base <= seqs[i] <= Head(t) && d[i].item == t.items[seqs[i] - t.base] {
      SeqsAt(d, i);
      assert d[i] in d;
    }
  }

  /** Frames for a batch of seqs: one look at the cache, then serialize what it lacks. */
  method FillFrames(cache: B.Cache<Frame>, t: Topic, seqs: seq<nat>, v: B.Variant, ghost records: seq<Out>)
      returns (frames: seq<Frame>)
    requires cache.Valid() && Faithful(t, cache.frames) && RecordsAt(t, seqs, records)
    modifies cache
    ensures cache.Valid() && Faithful(t, cache.frames)
    ensures |frames| == |records| && forall i :: 0 <= i < |frames| ==> frames[i] == Serialize(records[i], v)
  {
    var cached := cache.GetMany(seqs, B.Bits(v));
    frames := [];
    for i := 0 to |seqs|
      invariant cache.Valid() && Faithful(t, cache.frames)
      invariant |frames| == i && forall k :: 0 <= k < i ==> frames[k] == Serialize(records[k], v)
    {
      var f;
      if cached[i].Some? {
        f := cached[i].value;
      } else {
        f := FrameOf(cache, t, seqs[i], v);
      }
      frames := frames + [f];
    }
  }

  /** The shared-frame read returns the serialization of exactly what the plain read returns,
      with the same cursor, tombstone and caught-up flag, whatever the cache holds. */
  method DiffSharedFrames(t: Topic, req: Request, now: int, cache: B.Cache<Frame>, v: B.Variant)
    returns (frames: seq<Frame>, next: int, head: int, caughtUp: bool, tombstone: Option<E.Tombstone>,
        ghost r: Response)
    requires cache.Valid() && Faithful(t, cache.frames)
    modifies cache
    ensures cache.Valid() && Faithful(t, cache.frames)
    ensures Answers(t, req, now, r) && next == r.next && head == r.head && caughtUp == r.caughtUp
            && tombstone == r.tombstone
    ensures |frames| == |r.records| && forall i :: 0 <= i < |frames| ==> frames[i] == Serialize(r.records[i], v)
    ensures forall i :: 0 <= i < |frames| ==> Shows(frames[i], r.records[i], v)
  {
    var seqs;
    seqs, next, r := WalkSeqs(t, req, now);
    head, tombstone := Head(t), Resume(t, req.from).1;
    caughtUp := next == head;
    DeliveredRecordsAt(t, req, now, Resume(t, req.from).0, next, seqs);
    frames := FillFrames(cache, t, seqs, v, r.records);
  }
}
