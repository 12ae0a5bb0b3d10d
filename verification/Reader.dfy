/** Cursor reads (`diff` in `src/engine/mod.rs`, `evaluate` in `src/engine/filters.rs`, the
    TTL and cap floors of `enforce_retention_hardened` in `src/engine/topic_state.rs`). */
module Reader {
  import opened Common
  import E = Eviction

  const DEFAULT_LIMIT: nat := 256
  const MAX_LIMIT: nat := 1000
  const DEFAULT_MAX_BATCH_BYTES: nat := 1048576
  const MAX_BATCH_BYTES: nat := 8388608

  datatype Item = Item(ts: int, node: Option<string>, tag: Option<string>, data: string, meta: Option<string>,
      bytes: nat, deleted: bool)

  /** A topic as a reader sees it: seq `base + i` is item `i`; the front below `first` is
      physically reclaimed. */
  datatype Topic = Topic(base: nat, items: seq<Item>, first: nat, floors: E.Floors, ttl: nat)

  function Head(t: Topic): int { t.base + |t.items| - 1 }

  function Earliest(t: Topic): int { Max(E.Earliest(t.floors, t.base, Head(t)), Min(t.first, Head(t) + 1)) }

  function EvictEarliest(t: Topic): int { E.EvictEarliest(t.floors, t.base, Head(t)) }

  function Get(t: Topic, s: int): Option<Item> {
    if t.base <= s && t.first <= s <= Head(t) then Some(t.items[s - t.base]) else None
  }

  datatype Decision = Deliver | Deleted | NodeFiltered | Expired

  predicate IsExpired(ttl: nat, now: int, ts: int) { ttl > 0 && now - ts > ttl }

  /** The read pipeline: TTL, then deleted, then node loop prevention. */
  function Evaluate(nodes: set<string>, ttl: nat, now: int, item: Item): Decision {
    if IsExpired(ttl, now, item.ts) then Expired
    else if item.deleted then Deleted
    else if item.node.Some? && item.node.value in nodes then NodeFiltered
    else Deliver
  }

  /** A read request; `nodes` are the reader's own, empty if the topic does not dedupe. */
  datatype Request = Request(from: int, limit: nat, maxBytes: nat, nodes: set<string>)

  function Limit(req: Request): (n: nat)
    ensures 1 <= n <= MAX_LIMIT
  {
    if req.limit == 0 then DEFAULT_LIMIT else if req.limit < MAX_LIMIT then req.limit else MAX_LIMIT
  }

  function Budget(req: Request): nat {
    if req.maxBytes == 0 then DEFAULT_MAX_BATCH_BYTES else if req.maxBytes < MAX_BATCH_BYTES then req.maxBytes
        else MAX_BATCH_BYTES
  }

  /** A delivered record. */
  datatype Out = Out(s: int, item: Item)

  datatype Response = Response(records: seq<Out>, next: int, head: int, earliest: int, caughtUp: bool,
      tombstone: Option<E.Tombstone>, lag: int)

  /** Where the walk starts, and what it reports lost. */
  function Resume(t: Topic, from: int): (r: (int, Option<E.Tombstone>)) {
    var head, earliest, evictEarliest := Head(t), Earliest(t), EvictEarliest(t);
    if from > head then
      (earliest - 1, Some(E.Tombstone(t.base, head, E.Recreated, Max(head - t.base, 0) + 1, earliest, head)))
    else if from + 1 < evictEarliest then
      (Max(earliest - 1, from), Some(E.BuildTombstone(from, evictEarliest, head, E.ReasonForGap(t.floors, from + 1))))
    else (from, None)
  }

  predicate Delivers(t: Topic, req: Request, now: int, s: int) {
    Get(t, s).Some? && Evaluate(req.nodes, t.ttl, now, Get(t, s).value) == Deliver
  }

  /** The records of `lo + 1 ..= hi` the pipeline delivers, in order. */
  function Delivered(t: Topic, req: Request, now: int, lo: int, hi: int): seq<Out>
    decreases hi - lo
  {
    if hi <= lo then [] else
    Delivered(t, req, now, lo, hi - 1) + (if Delivers(t, req, now, hi) then [Out(hi, Get(t, hi).value)] else [])
  }

  function Bytes(records: seq<Out>): nat {
    if records == [] then 0 else Bytes(records[..|records| - 1]) + records[|records| - 1].item.bytes
  }

  /** The walk stops at the head, at the limit, or before a record over the byte budget. */
  ghost predicate Full(t: Topic, req: Request, now: int, records: seq<Out>, next: int) {
    || next >= Head(t)
    || |records| == Limit(req)
    || (records != [] && Delivers(t, req, now, next + 1) && Bytes(records) + Get(t, next + 1).value.bytes > Budget(req))
  }

  /** What a read answers: the deliverable records behind the cursor, as many as fit. */
  ghost predicate Answers(t: Topic, req: Request, now: int, r: Response) {
    var (cursor, tombstone) := Resume(t, req.from);
    && r.head == Head(t) && r.earliest == Earliest(t) && r.tombstone == tombstone
    && cursor <= r.next <= Head(t)
    && r.records == Delivered(t, req, now, cursor, r.next) && Full(t, req, now, r.records, r.next)
    && |r.records| <= Limit(req) && (|r.records| <= 1 || Bytes(r.records) <= Budget(req))
    && (|r.records| == Limit(req) ==> r.records[|r.records| - 1].s == r.next)
    && r.caughtUp == (r.next == r.head) && r.lag == Max(r.head - r.next, 0)
  }

  /** A walk under way: `records` are those of `cursor + 1 ..= next`, within the limits. */
  ghost predicate Walking(t: Topic, req: Request, now: int, records: seq<Out>, next: int) {
    var cursor := Resume(t, req.from).0;
    && cursor <= next <= Head(t) && records == Delivered(t, req, now, cursor, next)
    && |records| <= Limit(req) && (|records| <= 1 || Bytes(records) <= Budget(req))
    && (|records| == Limit(req) ==> records[|records| - 1].s == next)
  }

  lemma DeliveredNext(t: Topic, req: Request, now: int, lo: int, hi: int)
    requires lo <= hi
    ensures Delivered(t, req, now, lo, hi + 1) ==
            Delivered(t, req, now, lo, hi) + if Delivers(t, req, now, hi + 1)
                then [Out(hi + 1, Get(t, hi + 1).value)] else []
  {
  }

  lemma BytesNext(records: seq<Out>, o: Out)
    ensures Bytes(records + [o]) == Bytes(records) + o.item.bytes
  {
    assert (records + [o])[..|records|] == records;
  }

  /** The walk passes a seq that is not delivered. */
  lemma WalkPast(t: Topic, req: Request, now: int, records: seq<Out>, next: int)
    requires Walking(t, req, now, records, next) && next < Head(t) && |records| < Limit(req)
             && !Delivers(t, req, now, next + 1)
    ensures Walking(t, req, now, records, next + 1)
  {
    DeliveredNext(t, req, now, Resume(t, req.from).0, next);
    assert records + [] == records;
  }

  /** The walk takes a record that fits. */
  lemma WalkOver(t: Topic, req: Request, now: int, records: seq<Out>, next: int, o: Out)
    requires Walking(t, req, now, records, next) && next < Head(t) && |records| < Limit(req)
    requires Delivers(t, req, now, next + 1) && o == Out(next + 1, Get(t, next + 1).value)
    requires records == [] || Bytes(records) + o.item.bytes <= Budget(req)
    ensures Walking(t, req, now, records + [o], next + 1) && Bytes(records + [o]) == Bytes(records) + o.item.bytes
  {
    DeliveredNext(t, req, now, Resume(t, req.from).0, next);
    BytesNext(records, o);
  }

  /** The answer of a finished walk. */
  function Answer(t: Topic, req: Request, records: seq<Out>, next: int): Response {
    Response(records, next, Head(t), Earliest(t), next == Head(t), Resume(t, req.from).1, Max(Head(t) - next, 0))
  }

  method Diff(t: Topic, req: Request, now: int) returns (r: Response)
    ensures Answers(t, req, now, r)
  {
    var limit, maxBytes, head := Limit(req), Budget(req), Head(t);
    var (cursor, tombstone) := Resume(t, req.from);
    var records, next, batchBytes := [], cursor, 0;
    var s := cursor + 1;
    while s <= head && |records| < limit
      invariant s == next + 1 && Walking(t, req, now, records, next) && batchBytes == Bytes(records)
      decreases head - s
    {
      var item := Get(t, s);
      if item.None? {
        WalkPast(t, req, now, records, next);
        next, s := s, s + 1;
        continue;
      }
      if Evaluate(req.nodes, t.ttl, now, item.value) == Deliver {
        if records != [] && batchBytes + item.value.bytes > maxBytes {
          break;
        }
        WalkOver(t, req, now, records, next, Out(s, item.value));
        batchBytes := batchBytes + item.value.bytes;
        records := records + [Out(s, item.value)];
      } else {
        WalkPast(t, req, now, records, next);
      }
      next, s := s, s + 1;
    }
    r := Response(records, next, head, Earliest(t), next == head, tombstone, Max(head - next, 0));
  }

  // ---- one read loses nothing silently --------------------------------------

  /** The topic accounts for everything it dropped: seqs at or below the delete floor are
      deleted, and the reclaimed front is deleted or at or below an involuntary floor. */
  ghost predicate Sound(t: Topic) {
    && t.base >= 1 && t.floors.delete <= Head(t) && t.first <= Head(t) + 1
    && (forall i :: 0 <= i < |t.items| && t.base + i <= t.floors.delete ==> t.items[i].deleted)
    && (forall i :: 0 <= i < |t.items| && t.base + i < t.first ==>
         t.items[i].deleted || t.base + i <= E.Involuntary(t.floors))
  }

  /** Record `s` is expired at `now`. */
  predicate Stale(t: Topic, now: int, s: int) {
    t.base <= s <= Head(t) && IsExpired(t.ttl, now, t.items[s - t.base].ts)
  }

  predicate Reported(tombstone: Option<E.Tombstone>, s: int) {
    tombstone.Some? && tombstone.value.gapFrom <= s <= tombstone.value.gapTo
  }

  /** The seq is deleted, or filtered out for this reader. */
  predicate Silent(t: Topic, nodes: set<string>, s: int) {
    && t.base <= s <= Head(t)
    && var item := t.items[s - t.base];
       item.deleted || (item.node.Some? && item.node.value in nodes)
  }

  ghost predicate Ascending(d: seq<Out>) { forall j, k :: 0 <= j < k < |d| ==> d[j].s < d[k].s }

  ghost predicate AllDelivered(t: Topic, req: Request, now: int, lo: int, hi: int, d: seq<Out>) {
    forall o :: o in d ==> lo < o.s <= hi && Delivers(t, req, now, o.s) && o.item == Get(t, o.s).value
  }

  lemma {:induction false} DeliveredAscends(t: Topic, req: Request, now: int, lo: int, hi: int)
    ensures Ascending(Delivered(t, req, now, lo, hi))
            && AllDelivered(t, req, now, lo, hi, Delivered(t, req, now, lo, hi))
    decreases hi - lo
  {
    if lo < hi {
      DeliveredAscends(t, req, now, lo, hi - 1);
      var d0 := Delivered(t, req, now, lo, hi - 1);
      forall j | 0 <= j < |d0| ensures d0[j].s < hi { assert d0[j] in d0; }
    }
  }

  lemma {:induction false} DeliveredIsComplete(t: Topic, req: Request, now: int, lo: int, hi: int, s: int)
    requires lo < s <= hi && Delivers(t, req, now, s)
    ensures Out(s, Get(t, s).value) in Delivered(t, req, now, lo, hi)
    decreases hi - lo
  {
    if s < hi { DeliveredIsComplete(t, req, now, lo, hi - 1, s); }
  }

  /** A seq a read passes that is neither deleted nor filtered lies in the gap it reports
      exactly when a cap, TTL or a trimmed source took it; otherwise it is delivered exactly
      when it is not expired. */
  lemma PassedIsAccounted(t: Topic, req: Request, now: int, next: int, s: int)
    requires Sound(t) && req.from <= Head(t)
    requires var cursor := Resume(t, req.from).0; cursor <= next <= Head(t)
    requires req.from < s <= next && t.base <= s
    ensures var (cursor, tombstone) := Resume(t, req.from);
            && (Reported(tombstone, s) <==> s <= t.floors.evict || s <= t.floors.expiry || s <= t.floors.trim)
            && (Reported(tombstone, s) ==> s <= cursor)
            && (!Silent(t, req.nodes, s) && !Reported(tombstone, s) ==>
                  cursor < s && (Delivers(t, req, now, s) <==> !Stale(t, now, s)))
  {
    E.DualWatermark(t.floors, t.base, Head(t), s);
  }

  /** A read behind the head moves the cursor, whatever the limit and the byte budget. */
  lemma ReadMakesProgress(t: Topic, req: Request, now: int, r: Response)
    requires Answers(t, req, now, r) && req.from < Head(t)
    ensures req.from < r.next <= Head(t)
  {
    var cursor := Resume(t, req.from).0;
    if r.next == cursor { assert Delivered(t, req, now, cursor, r.next) == []; }
  }

  /** Voluntary deletes alone never cause a tombstone. */
  lemma DeletesAreSilent(t: Topic, from: int)
    requires E.Involuntary(t.floors) < t.base && t.base - 1 <= from <= Head(t)
    ensures Resume(t, from) == (from, None)
  {
  }

  /** A reported gap is real: it is not empty, its estimate counts it, and the reason named is
      a floor that reaches into it, `source_trim` only when no cap or TTL floor does. */
  lemma TombstoneIsReal(t: Topic, from: int)
    requires t.base >= 1 && t.base - 1 <= from <= Head(t) && Resume(t, from).1.Some?
    ensures var g := Resume(t, from).1.value;
            && g.gapFrom == from + 1 <= g.gapTo <= E.Involuntary(t.floors) && g.missed == g.gapTo - g.gapFrom + 1
            && (g.reason == E.Cap || g.reason == E.Mixed <==> t.floors.evict >= g.gapFrom)
            && (g.reason == E.Ttl || g.reason == E.Mixed <==> t.floors.expiry >= g.gapFrom)
            && (g.reason == E.SourceTrim ==> t.floors.trim >= g.gapFrom) && g.reason != E.Recreated
            && g.earliest == g.gapTo + 1 && g.head == Head(t)
  {
  }

  /** The earliest seq a read names is behind everything lost, deleted from the front or reclaimed, and
      nothing below it can be read; it is the seq behind the head if nothing is left. */
  lemma EarliestIsFirstKept(t: Topic, s: int)
    requires Sound(t)
    ensures Earliest(t) <= Head(t) + 1
    ensures Earliest(t) <= Head(t) ==>
              t.base <= Earliest(t) && t.first <= Earliest(t) && E.Involuntary(t.floors) < Earliest(t)
              && t.floors.delete < Earliest(t)
    ensures t.base <= s < Earliest(t) && s <= Head(t) ==>
              s <= E.Involuntary(t.floors) || s < t.first || t.items[s - t.base].deleted
  {
  }

  // ---- a cursor from before the topic was recreated --------------------------

  /** Record `s` is there, not lost, not deleted, not the reader's own and not expired. */
  predicate Readable(t: Topic, req: Request, now: int, s: int) {
    && t.base <= s <= Head(t) && t.first <= s && E.Involuntary(t.floors) < s
    && var item := t.items[s - t.base];
       && !item.deleted && (item.node.None? || item.node.value !in req.nodes)
       && (t.ttl == 0 || now - item.ts <= t.ttl)
  }

  /** Such a record lies behind where the walk of a recreated topic starts. */
  lemma ReadableIsDelivered(t: Topic, req: Request, now: int, s: int)
    requires Sound(t) && req.from > Head(t) && Readable(t, req, now, s)
    ensures Resume(t, req.from).0 < s && Delivers(t, req, now, s)
  {
  }

  /** A cursor beyond the head is from before the topic was recreated: the read says so, naming all
      seqs of the new topic as the gap, and delivers the new topic from its first record on. Every
      readable record up to where it stops is delivered, and it delivers some if there are any. */
  lemma RecreatedIsReadAnew(t: Topic, req: Request, now: int, r: Response)
    requires Sound(t) && req.from > Head(t) && Answers(t, req, now, r)
    ensures r.tombstone.Some? && var g := r.tombstone.value;
            && g.reason == E.Recreated && g.gapFrom == t.base && g.gapTo == Head(t) && g.head == Head(t)
            && g.missed == Max(|t.items|, 1) && g.earliest == r.earliest
    ensures forall s :: s <= r.next && Readable(t, req, now, s) ==> Out(s, t.items[s - t.base]) in r.records
    ensures (exists s :: Readable(t, req, now, s)) ==> r.records != []
  {
    var cursor := Resume(t, req.from).0;
    forall s | s <= r.next && Readable(t, req, now, s) ensures Out(s, t.items[s - t.base]) in r.records {
      ReadableIsDelivered(t, req, now, s);
      DeliveredIsComplete(t, req, now, cursor, r.next, s);
    }
  }

  // ---- how much a read returns ----------------------------------------------

  /** A read returns no more records than asked for, or than the default if nothing was asked, and no
      more bytes if it returns more than one; and it stops short of the head only once it has as
      many records, or the next one would exceed the bytes. */
  lemma StopsShortOnlyWhenFull(t: Topic, req: Request, now: int, r: Response)
    requires Answers(t, req, now, r)
    ensures |r.records| <= MAX_LIMIT && (req.limit > 0 ==> |r.records| <= req.limit)
    ensures req.limit == 0 ==> |r.records| <= DEFAULT_LIMIT
    ensures |r.records| > 1 ==>
              && Bytes(r.records) <= MAX_BATCH_BYTES && (req.maxBytes > 0 ==> Bytes(r.records) <= req.maxBytes)
              && (req.maxBytes == 0 ==> Bytes(r.records) <= DEFAULT_MAX_BATCH_BYTES)
    ensures r.next < Head(t) ==>
              || |r.records| == MAX_LIMIT || |r.records| == (if req.limit > 0 then req.limit else DEFAULT_LIMIT)
              || (&& r.records != [] && Delivers(t, req, now, r.next + 1)
                  && var bytes := Bytes(r.records) + Get(t, r.next + 1).value.bytes;
                     || bytes > MAX_BATCH_BYTES
                     || bytes > if req.maxBytes > 0 then req.maxBytes else DEFAULT_MAX_BATCH_BYTES)
  {
  }

  // ---- a read is determined -------------------------------------------------

  lemma {:induction false} DeliveredGrows(t: Topic, req: Request, now: int, lo: int, mid: int, hi: int)
    requires lo <= mid <= hi
    ensures Delivered(t, req, now, lo, mid) <= Delivered(t, req, now, lo, hi)
    ensures Bytes(Delivered(t, req, now, lo, mid)) <= Bytes(Delivered(t, req, now, lo, hi))
    ensures mid < hi && Delivers(t, req, now, mid + 1) ==>
              && |Delivered(t, req, now, lo, mid)| < |Delivered(t, req, now, lo, hi)|
              && Bytes(Delivered(t, req, now, lo, mid))
                   + Get(t, mid + 1).value.bytes <= Bytes(Delivered(t, req, now, lo, hi))
    decreases hi - lo
  {
    if mid < hi {
      DeliveredGrows(t, req, now, lo, mid, hi - 1);
      var d0, d := Delivered(t, req, now, lo, hi - 1), Delivered(t, req, now, lo, hi);
      if Delivers(t, req, now, hi) { assert d[..|d0|] == d0; } else { assert d == d0; }
    }
  }

  /** The contract of a read leaves nothing open: two answers to one request are the same. */
  lemma ReadIsDetermined(t: Topic, req: Request, now: int, r1: Response, r2: Response)
    requires Answers(t, req, now, r1) && Answers(t, req, now, r2)
    ensures r1 == r2
  {
    if r1.next < r2.next {
      StopsFirst(t, req, now, r1, r2);
    } else if r2.next < r1.next {
      StopsFirst(t, req, now, r2, r1);
    }
  }

  lemma StopsFirst(t: Topic, req: Request, now: int, r1: Response, r2: Response)
    requires Answers(t, req, now, r1) && Answers(t, req, now, r2)
    ensures r2.next <= r1.next
  {
    if r1.next < r2.next {
      var cursor := Resume(t, req.from).0;
      DeliveredGrows(t, req, now, cursor, r1.next, r2.next);
    }
  }
}
