/** Retention, and readers that follow their cursor while a topic changes. */
module ReaderRuns {
  import opened Common
  import E = Eviction
  import opened Reader

  // ---- retention ------------------------------------------------------------

  ghost predicate Timely(items: seq<Item>) {
    forall i, j :: 0 <= i < j < |items| ==> items[i].ts <= items[j].ts
  }

  /** What retention may do: raise the involuntary floors and reclaim the front, accounting for
      all it drops. */
  ghost predicate Retained(t: Topic, t1: Topic) {
    && t1 == t.(floors := t1.floors, first := t1.first)
    && t1.floors == t.floors.(evict := t1.floors.evict, expiry := t1.floors.expiry)
    && t.floors.evict <= t1.floors.evict && t.floors.expiry <= t1.floors.expiry && t.first <= t1.first
    && Sound(t1)
  }

  predicate Present(t: Topic, s: int) { t.base <= s <= Head(t) && t.first <= s }

  /** Every record present up to `s` is expired. */
  ghost predicate FrontStale(t: Topic, now: int, s: int) {
    forall p :: Present(t, p) && p <= s ==> Stale(t, now, p)
  }

  /** A floor at `expiry` covers the expired records at the physical front. */
  ghost predicate Scanned(t: Topic, now: int, expiry: int) {
    forall s :: Present(t, s) && FrontStale(t, now, s) ==> s <= expiry
  }

  /** The expiry floor: the expired records at the physical front, up to the first that is not. */
  method ExpiryFloor(t: Topic, now: int) returns (expiry: nat)
    requires Sound(t)
    ensures t.floors.expiry <= expiry && Scanned(t, now, expiry)
    ensures expiry > t.floors.expiry ==> Present(t, expiry) && FrontStale(t, now, expiry)
    ensures Sound(t.(floors := t.floors.(expiry := expiry)))
  {
    expiry := t.floors.expiry;
    if t.ttl == 0 {
      return;
    }
    var i := if t.first <= t.base then 0 else if t.first - t.base <= |t.items| then t.first - t.base else |t.items|;
    while i < |t.items| && IsExpired(t.ttl, now, t.items[i].ts)
      invariant 0 <= i <= |t.items| && t.floors.expiry <= expiry && t.first <= Max(t.base + i, t.base)
      invariant expiry > t.floors.expiry ==> Present(t, expiry) && expiry < t.base + i
      invariant forall p :: Present(t, p) && p < t.base + i ==> Stale(t, now, p) && p <= expiry
    {
      if t.base + i > expiry {
        expiry := t.base + i;
      }
      i := i + 1;
    }
    forall s | Present(t, s) && FrontStale(t, now, s) ensures s <= expiry {
      if t.base + i <= s { assert Present(t, t.base + i); }
    }
  }

  lemma TimelyFrontIsStale(t: Topic, now: int, s: int)
    requires Timely(t.items) && Stale(t, now, s)
    ensures FrontStale(t, now, s)
  {
    forall p | Present(t, p) && p <= s ensures Stale(t, now, p) {
      assert p < s ==> t.items[p - t.base].ts <= t.items[s - t.base].ts;
    }
  }

  /** With timestamps in seq order nothing live stays expired above the floor. */
  lemma TimelyIsSwept(t: Topic, now: int, expiry: int, s: int)
    requires Sound(t) && Timely(t.items) && Scanned(t, now, expiry) && Stale(t, now, s)
    ensures t.items[s - t.base].deleted || s <= E.Involuntary(t.floors) || s <= expiry
  {
    TimelyFrontIsStale(t, now, s);
    if t.first <= s { assert Present(t, s); }
  }

  /** The bytes of the first `n` items that are present and above `floor`. */
  function BytesAbove(t: Topic, floor: int, n: nat): nat
    requires n <= |t.items|
  {
    if n == 0 then 0 else
    BytesAbove(t, floor, n - 1)
        + (if t.first <= t.base + n - 1 && floor < t.base + n - 1 then t.items[n - 1].bytes else 0)
  }

  /** How many items have a seq of at most `s`. */
  function UpTo(t: Topic, s: int): (n: nat)
    ensures n <= |t.items|
  {
    if s < t.base then 0 else if s < t.base + |t.items| then s + 1 - t.base else |t.items|
  }

  /** A record that is present and above `floor`. */
  predicate Evictable(t: Topic, floor: int, s: int) { t.base <= s <= Head(t) && t.first <= s && floor < s }

  /** Evicting up to `evict` frees `over` bytes above `floor`, or everything there. */
  ghost predicate Frees(t: Topic, floor: int, evict: int, over: int) {
    || over <= BytesAbove(t, floor, UpTo(t, evict))
    || forall s :: Evictable(t, floor, s) ==> s <= evict
  }

  /** The eviction floor that brings retained bytes down to the cap: the oldest records not
      already lost, as many as needed and no more. */
  method ByteCapFloor(t: Topic, retained: nat, capBytes: nat) returns (evict: nat)
    ensures t.floors.evict <= evict && (capBytes == 0 || retained <= capBytes ==> evict == t.floors.evict)
    ensures evict > t.floors.evict ==> !Frees(t, E.Lost(t.floors), evict - 1, retained - capBytes)
    ensures capBytes > 0 ==> Frees(t, E.Lost(t.floors), evict, retained - capBytes)
  {
    evict := t.floors.evict;
    if capBytes == 0 || retained <= capBytes {
      return;
    }
    var over := retained - capBytes;
    var i := 0;
    ghost var floor := E.Lost(t.floors);
    while i < |t.items| && over > 0
      invariant 0 <= i <= |t.items| && t.floors.evict <= evict
      invariant over == Max(retained - capBytes - BytesAbove(t, floor, i), 0)
      invariant evict > t.floors.evict ==> t.base <= evict < t.base + i && floor < evict && t.first <= evict
      invariant evict > t.floors.evict ==> BytesAbove(t, floor, evict - t.base) < retained - capBytes
      invariant evict > t.floors.evict && over == 0 ==> evict == t.base + i - 1
      invariant evict == t.floors.evict ==> over > 0
      invariant forall s :: Evictable(t, floor, s) && s < t.base + i ==> s <= evict
    {
      if t.first <= t.base + i && E.Lost(t.floors) < t.base + i {
        over := if t.items[i].bytes < over then over - t.items[i].bytes else 0;
        evict := t.base + i;
      }
      i := i + 1;
    }
    assert evict > t.floors.evict ==> Evictable(t, floor, evict);
  }

  /** Reclaim the front: everything below the reported floor, and a run of deleted slots. */
  method ReclaimFront(t: Topic) returns (first: nat)
    requires Sound(t)
    ensures t.first <= first && Sound(t.(first := first)) && E.Earliest(t.floors, t.base, Head(t)) <= first
    ensures t.base <= first <= Head(t) ==> !t.items[first - t.base].deleted
  {
    var earliest := E.Earliest(t.floors, t.base, Head(t));
    first := if earliest > t.first then earliest else t.first;
    while first >= t.base && first - t.base < |t.items| && t.items[first - t.base].deleted
      invariant t.first <= first <= Head(t) + 1 && earliest <= first
      invariant forall i :: 0 <= i < |t.items| && t.base + i < first ==>
                t.items[i].deleted || t.base + i <= E.Involuntary(t.floors)
      decreases t.base + |t.items| - first
    {
      first := first + 1;
    }
  }

  lemma EvictingMore(t: Topic, evict: nat)
    requires Sound(t) && t.floors.evict <= evict
    ensures Sound(t.(floors := t.floors.(evict := evict)))
  {
  }

  /** The eviction floor the record cap asks for. */
  function CountFloor(t: Topic, capRecords: nat): (evict: nat)
    ensures t.floors.evict <= evict && (capRecords > 0 ==> Head(t) - capRecords <= evict)
    ensures evict > t.floors.evict ==> capRecords > 0 && evict == Head(t) - capRecords
  {
    if capRecords > 0 && Head(t) - capRecords > t.floors.evict then Head(t) - capRecords else t.floors.evict
  }

  /** `evict` is the floor both caps ask for: the record cap is met, and beyond that the oldest
      records go until the byte cap is met or none is left, and not one more. */
  ghost predicate MeetsCaps(t: Topic, capRecords: nat, retained: nat, capBytes: nat, evict: int) {
    var count := CountFloor(t, capRecords);
    var floor := E.Lost(t.floors.(evict := count));
    && count <= evict
    && (capBytes > 0 ==> Frees(t, floor, evict, retained - capBytes))
    && (evict > count ==> capBytes > 0 && retained > capBytes && !Frees(t, floor, evict - 1, retained - capBytes))
  }

  /** Nothing `Frees` looks at depends on the floors of the topic. */
  lemma FreesIgnoresFloors(t: Topic, floors: E.Floors, floor: int, evict: int, over: int)
    ensures Frees(t.(floors := floors), floor, evict, over) <==> Frees(t, floor, evict, over)
  {
    BytesIgnoreFloors(t, floors, floor, UpTo(t, evict));
    assert forall s :: Evictable(t.(floors := floors), floor, s) <==> Evictable(t, floor, s);
  }

  lemma {:induction false} BytesIgnoreFloors(t: Topic, floors: E.Floors, floor: int, n: nat)
    requires n <= |t.items|
    ensures BytesAbove(t.(floors := floors), floor, n) == BytesAbove(t, floor, n)
  {
    if n > 0 { BytesIgnoreFloors(t, floors, floor, n - 1); }
  }

  /** The eviction floor both caps ask for. */
  method CapFloor(t: Topic, capRecords: nat, retained: nat, capBytes: nat) returns (evict: nat)
    requires Sound(t)
    ensures MeetsCaps(t, capRecords, retained, capBytes, evict)
    ensures Sound(t.(floors := t.floors.(evict := evict)))
  {
    evict := t.floors.evict;
    if capRecords > 0 && Head(t) > capRecords && Head(t) - capRecords > evict {
      evict := Head(t) - capRecords;
    }
    ghost var floors := t.floors.(evict := evict);
    evict := ByteCapFloor(t.(floors := t.floors.(evict := evict)), retained, capBytes);
    FreesIgnoresFloors(t, floors, E.Lost(floors), evict, retained - capBytes);
    FreesIgnoresFloors(t, floors, E.Lost(floors), evict - 1, retained - capBytes);
    EvictingMore(t, evict);
  }

  /** A retention pass: TTL, then the record cap, then the byte cap, then reclaim. */
  method EnforceRetention(t: Topic, now: int, capRecords: nat, retained: nat, capBytes: nat) returns (t1: Topic)
    requires Sound(t)
    ensures Retained(t, t1) && Scanned(t, now, t1.floors.expiry)
    ensures var expiry := t1.floors.expiry;
            expiry > t.floors.expiry ==> Present(t, expiry) && FrontStale(t, now, expiry)
    ensures var swept := t.(floors := t.floors.(expiry := t1.floors.expiry));
            MeetsCaps(swept, capRecords, retained, capBytes, t1.floors.evict)
    ensures E.Earliest(t1.floors, t.base, Head(t)) <= t1.first
  {
    var expiry := ExpiryFloor(t, now);
    t1 := t.(floors := t.floors.(expiry := expiry));
    var evict := CapFloor(t1, capRecords, retained, capBytes);
    t1 := t1.(floors := t1.floors.(evict := evict));
    var first := ReclaimFront(t1);
    t1 := t1.(first := first);
  }

  // ---- a reader that follows its cursor -------------------------------------

  /** The scan of a read's own retention pass: its clock, and the topic it saw. */
  datatype Scan = Scan(now: int, t: Topic)

  /** A read under way: its request, its own scan, and the topic when it read the floors and the
      head, once the scanned floor was in place. The walk over the index comes later. The topic
      may change in between. */
  datatype Reading = Reading(req: Request, scan: Scan, t0: Topic)

  /** A topic and one reader: what it got, what was reported lost to it, what was deleted or
      filtered when it passed, what slipped through: present when the floors were read,
      reclaimed when the walk came by; and what was hidden: expired but above the floors. */
  datatype World = World(t: Topic, start: int, cursor: int, scan: Option<Scan>, reading: Option<Reading>,
                         got: seq<Out>, gaps: set<int>, silent: set<int>, slipped: set<int>, hidden: set<int>)

  datatype Step =
    | Append(items: seq<Item>)
    | Delete(gone: set<int>, floor: nat)      // voluntary: single seqs, and everything up to `floor`
    | Retain(t1: Topic)                       // a pass of anyone raises the floors and reclaims
    | Look(now: int)                          // a read's own pass plans its floor
    | Begin(req: Request)                     // the read takes the floors and the head
    | Walk(next: int)                         // and walks the index, stopping at `next`

  function Erased(t: Topic, gone: set<int>, floor: nat): (items: seq<Item>)
    ensures |items| == |t.items|
    ensures forall i :: 0 <= i < |items| ==>
              items[i] == t.items[i].(deleted := t.items[i].deleted || t.base + i in gone || t.base + i <= floor)
  {
    seq(|t.items|, i requires 0 <= i < |t.items| =>
          t.items[i].(deleted := t.items[i].deleted || t.base + i in gone || t.base + i <= floor))
  }

  function Between(lo: int, hi: int): (r: set<int>)
    ensures forall s :: s in r <==> lo <= s <= hi
    decreases hi - lo
  {
    if lo <= hi then {lo} + Between(lo + 1, hi) else {}
  }

  /** The seqs of a reported gap. */
  function GapSeqs(tombstone: Option<E.Tombstone>): set<int> {
    if tombstone.Some? then Between(tombstone.value.gapFrom, tombstone.value.gapTo) else {}
  }

  ghost function Do(w: World, step: Step): World {
    match step
    case Append(items) => w.(t := w.t.(items := w.t.items + items))
    case Delete(gone, floor) =>
      if floor > Head(w.t) then w else
      w.(t := w.t.(items := Erased(w.t, gone, floor), floors := w.t.floors.(delete := Max(w.t.floors.delete, floor))))
    case Retain(t1) => if Retained(w.t, t1) then w.(t := t1) else w
    case Look(now) => w.(scan := Some(Scan(now, w.t)))
    case Begin(req) =>
      if w.scan.None? || !Scanned(w.scan.value.t, w.scan.value.now, w.t.floors.expiry) then w
      else if req.from != w.cursor || w.cursor > Head(w.t) then w
      else w.(scan := None, reading := Some(Reading(req, w.scan.value, w.t)))
    case Walk(next) =>
      if w.reading.None? then w else
      var r := w.reading.value;
      var (cursor, tombstone) := Resume(r.t0, w.cursor);
      if !(cursor <= next <= Head(r.t0)) then w else
      w.(cursor := next, reading := None,
         got := w.got + Delivered(w.t, r.req, r.scan.now, cursor, next),
         gaps := w.gaps + GapSeqs(tombstone),
         silent := w.silent + (set s | s in Between(w.cursor + 1, next) && Silent(w.t, r.req.nodes, s)),
         slipped := w.slipped + (set s | s in Between(cursor + 1, next) && Slips(r, w.t, s)),
         hidden := w.hidden + (set s | s in Between(cursor + 1, next) && Hides(r, w.t, s)))
  }

  ghost function Run(w: World, steps: seq<Step>): World {
    if steps == [] then w else Do(Run(w, steps[..|steps| - 1]), steps[|steps| - 1])
  }

  /** Present when the floors were read, and reclaimed since without being deleted or filtered. */
  predicate Slips(r: Reading, t: Topic, s: int) {
    r.t0.first <= s < t.first && t.base <= s && !Silent(t, r.req.nodes, s)
  }

  /** Expired at the clock of the read and above the floors it took: it had come after the read's
      own scan, or behind a record that was present then and not expired. */
  ghost predicate Hides(r: Reading, t: Topic, s: int) {
    && t.first <= s && !Silent(t, r.req.nodes, s)
    && Stale(r.t0, r.scan.now, s) && E.Involuntary(r.t0.floors) < s
    && (s > Head(r.scan.t) || exists p :: Present(r.scan.t, p) && p < s && !Stale(r.scan.t, r.scan.now, p))
  }

  /** `t1` is `t` a while later: more records, more deleted, more reclaimed. */
  ghost predicate Later(t: Topic, t1: Topic) {
    && t1.base == t.base && t1.ttl == t.ttl && |t.items| <= |t1.items| && t.first <= t1.first
    && forall i :: 0 <= i < |t.items| ==>
         t1.items[i] == t.items[i].(deleted := t1.items[i].deleted) && (t.items[i].deleted ==> t1.items[i].deleted)
  }

  lemma LaterIsTransitive(t: Topic, t1: Topic, t2: Topic)
    requires Later(t, t1) && Later(t1, t2)
    ensures Later(t, t2)
  {
    forall i | 0 <= i < |t.items|
      ensures t2.items[i] == t.items[i].(deleted := t2.items[i].deleted) && (t.items[i].deleted ==> t2.items[i].deleted)
    {
      assert t1.items[i] == t.items[i].(deleted := t1.items[i].deleted);
      assert t2.items[i] == t1.items[i].(deleted := t2.items[i].deleted);
    }
  }

  /** The scan, the taking of the floors and the walk belong to one read of one topic. */
  ghost predicate Split(r: Reading, t: Topic) {
    && Sound(r.t0) && Later(r.scan.t, r.t0) && Later(r.t0, t) && r.req.from <= Head(r.t0)
    && Scanned(r.scan.t, r.scan.now, r.t0.floors.expiry)
  }

  lemma FrontOrBehind(t: Topic, now: int, s: int)
    requires Stale(t, now, s)
    ensures FrontStale(t, now, s) || exists p :: Present(t, p) && p < s && !Stale(t, now, p)
  {
  }

  /** An expired record the floors do not cover is hidden. */
  lemma UncoveredIsHidden(r: Reading, t: Topic, s: int)
    requires Split(r, t) && t.first <= s && Stale(r.t0, r.scan.now, s) && E.Involuntary(r.t0.floors) < s
    requires !Silent(t, r.req.nodes, s)
    ensures Hides(r, t, s)
  {
    if s <= Head(r.scan.t) {
      assert Present(r.scan.t, s) && Stale(r.scan.t, r.scan.now, s) by {
        assert r.t0.items[s - t.base] == r.scan.t.items[s - t.base].(deleted := r.t0.items[s - t.base].deleted);
      }
      FrontOrBehind(r.scan.t, r.scan.now, s);
    }
  }

  /** One read in its parts: a seq the walk passes that is not reported, deleted or filtered is
      delivered exactly when it neither slipped through nor was hidden. */
  lemma SplitReadAccounts(r: Reading, t: Topic, next: int, s: int)
    requires Split(r, t)
    requires Resume(r.t0, r.req.from).0 <= next <= Head(r.t0) && r.req.from < s <= next && t.base <= s
    ensures var (cursor, tombstone) := Resume(r.t0, r.req.from);
            && (Reported(tombstone, s) ==> s <= cursor)
            && (!Reported(tombstone, s) && !Silent(t, r.req.nodes, s) ==>
                  cursor < s && (Delivers(t, r.req, r.scan.now, s) <==> !Slips(r, t, s) && !Hides(r, t, s)))
  {
    PassedIsAccounted(r.t0, r.req, r.scan.now, next, s);
    assert t.items[s - t.base] == r.t0.items[s - t.base].(deleted := t.items[s - t.base].deleted);
    var tombstone := Resume(r.t0, r.req.from).1;
    if !Reported(tombstone, s) && !Silent(t, r.req.nodes, s) && t.first <= s && Stale(r.t0, r.scan.now, s) {
      UncoveredIsHidden(r, t, s);
    }
  }

  ghost predicate GotIt(got: seq<Out>, s: int) { exists k :: 0 <= k < |got| && got[k].s == s }

  /** A delivered record is the topic's record at its seq, deleted since or not. */
  ghost predicate Genuine(t: Topic, o: Out) {
    t.base <= o.s <= Head(t) && t.items[o.s - t.base] == o.item.(deleted := t.items[o.s - t.base].deleted)
  }

  /** The reader knows about `s`: it got it, was told it is lost, or was not meant to have it. */
  ghost predicate Known(w: World, s: int) { GotIt(w.got, s) || s in w.gaps || s in w.silent }

  ghost predicate Missed(w: World, s: int) { s in w.slipped || s in w.hidden }

  /** All that is recorded lies between where the reader began and its cursor. */
  ghost predicate Within(w: World) {
    && (forall s :: s in w.gaps || s in w.silent || s in w.slipped || s in w.hidden ==> w.start < s <= w.cursor)
    && (forall o :: o in w.got ==> w.start < o.s <= w.cursor && Genuine(w.t, o))
  }

  /** A passed seq is unknown to the reader exactly when it slipped through or was hidden, and no
      record was delivered twice or out of order. */
  ghost predicate Accounted(w: World) {
    && (forall s :: w.start < s <= w.cursor && w.t.base <= s ==> (Known(w, s) <==> !Missed(w, s)))
    && Within(w) && Ascending(w.got)
  }

  ghost predicate Inv(w: World) {
    && Sound(w.t) && w.start <= w.cursor && Accounted(w)
    && (w.scan.Some? ==> Later(w.scan.value.t, w.t))
    && (w.reading.Some? ==> Split(w.reading.value, w.t) && w.reading.value.req.from == w.cursor)
  }

  lemma GotStays(got: seq<Out>, more: seq<Out>, s: int)
    ensures GotIt(got + more, s) <==> GotIt(got, s) || GotIt(more, s)
  {
    if GotIt(got, s) {
      var k :| 0 <= k < |got| && got[k].s == s;
      assert (got + more)[k].s == s;
    } else if GotIt(more, s) {
      var k :| 0 <= k < |more| && more[k].s == s;
      assert (got + more)[|got| + k].s == s;
    }
  }

  lemma AscendingConcat(a: seq<Out>, b: seq<Out>, c: int)
    requires Ascending(a) && Ascending(b) && (forall o :: o in a ==> o.s <= c) && forall o :: o in b ==> c < o.s
    ensures Ascending(a + b)
  {
    forall j, k | 0 <= j < k < |a + b| ensures (a + b)[j].s < (a + b)[k].s {
      if j < |a| <= k { assert a[j] in a && b[k - |a|] in b; }
    }
  }

  lemma GotIn(got: seq<Out>, s: int)
    ensures GotIt(got, s) ==> exists o :: o in got && o.s == s
    ensures forall o :: o in got ==> GotIt(got, o.s)
  {
    if GotIt(got, s) {
      var k :| 0 <= k < |got| && got[k].s == s;
      assert got[k] in got;
    }
  }

  /** The read under way can stop at `next`. */
  ghost predicate CanStop(w: World, next: int) {
    && w.reading.Some?
    && Resume(w.reading.value.t0, w.cursor).0 <= next <= Head(w.reading.value.t0)
  }

  /** A newly passed seq is accounted for. */
  lemma WalkPasses(w: World, next: int, s: int, w1: World)
    requires Inv(w) && CanStop(w, next) && w.cursor < s <= next && w.t.base <= s && w1 == Do(w, Walk(next))
    ensures Known(w1, s) <==> !Missed(w1, s)
  {
    var r := w.reading.value;
    var (cursor, tombstone) := Resume(r.t0, w.cursor);
    var d := Delivered(w.t, r.req, r.scan.now, cursor, next);
    SplitReadAccounts(r, w.t, next, s);
    WalkDelivers(w, next, s);
    GotIn(w.got, s);
    assert s in GapSeqs(tombstone) <==> Reported(tombstone, s);
  }

  /** What the walk adds for a newly passed seq. */
  lemma WalkDelivers(w: World, next: int, s: int)
    requires Inv(w) && CanStop(w, next) && w.cursor < s <= next && w.t.base <= s
    ensures var r := w.reading.value;
            var cursor := Resume(r.t0, w.cursor).0;
            GotIt(Do(w, Walk(next)).got, s) <==> cursor < s && Delivers(w.t, r.req, r.scan.now, s)
  {
    var r := w.reading.value;
    var cursor := Resume(r.t0, w.cursor).0;
    var d := Delivered(w.t, r.req, r.scan.now, cursor, next);
    GotStays(w.got, d, s);
    GotIn(w.got, s);
    GotIn(d, s);
    DeliveredAscends(w.t, r.req, r.scan.now, cursor, next);
    if cursor < s && Delivers(w.t, r.req, r.scan.now, s) {
      DeliveredIsComplete(w.t, r.req, r.scan.now, cursor, next, s);
    }
  }

  /** Nothing changes for a seq passed before. */
  lemma WalkLeaves(w: World, next: int, s: int, w1: World)
    requires Inv(w) && CanStop(w, next) && s <= w.cursor && w1 == Do(w, Walk(next))
    ensures (Known(w1, s) <==> Known(w, s)) && (Missed(w1, s) <==> Missed(w, s))
  {
    var r := w.reading.value;
    var cursor := Resume(r.t0, w.cursor).0;
    var d := Delivered(w.t, r.req, r.scan.now, cursor, next);
    DeliveredAscends(w.t, r.req, r.scan.now, cursor, next);
    GotStays(w.got, d, s);
    GotIn(d, s);
  }

  /** What the walk delivers lies behind the old cursor. */
  lemma WalkGets(r: Reading, t: Topic, from: int, next: int)
    requires Later(r.t0, t) && from <= Head(r.t0) && Resume(r.t0, from).0 <= next <= Head(r.t0)
    ensures var d := Delivered(t, r.req, r.scan.now, Resume(r.t0, from).0, next);
            Ascending(d) && forall o :: o in d ==> from < o.s <= next && Genuine(t, o)
  {
    var cursor := Resume(r.t0, from).0;
    var d := Delivered(t, r.req, r.scan.now, cursor, next);
    DeliveredAscends(t, r.req, r.scan.now, cursor, next);
    forall o | o in d ensures from < o.s <= next && Genuine(t, o) {
      assert Delivers(t, r.req, r.scan.now, o.s) && o.item == Get(t, o.s).value;
    }
  }

  /** What the walk records lies behind the old cursor. */
  lemma WalkStaysWithin(w: World, next: int, w1: World)
    requires Inv(w) && CanStop(w, next) && w1 == Do(w, Walk(next))
    ensures Within(w1) && Ascending(w1.got) && w.cursor <= w1.cursor
  {
    var r := w.reading.value;
    var d := Delivered(w.t, r.req, r.scan.now, Resume(r.t0, w.cursor).0, next);
    WalkGets(r, w.t, w.cursor, next);
    AscendingConcat(w.got, d, w.cursor);
    assert forall o :: o in w1.got ==> o in w.got || o in d;
  }

  lemma WalkKeepsInv(w: World, next: int)
    requires Inv(w)
    ensures Inv(Do(w, Walk(next)))
  {
    if CanStop(w, next) {
      var w1 := Do(w, Walk(next));
      WalkStaysWithin(w, next, w1);
      forall s | w1.start < s <= w1.cursor && w1.t.base <= s ensures Known(w1, s) <==> !Missed(w1, s) {
        if s <= w.cursor { WalkLeaves(w, next, s, w1); } else { WalkPasses(w, next, s, w1); }
      }
    }
  }

  /** Records stay genuine as the topic moves on. */
  lemma StaysGenuine(t: Topic, t1: Topic, o: Out)
    requires Genuine(t, o) && Later(t, t1)
    ensures Genuine(t1, o)
  {
    assert t1.items[o.s - t.base] == t.items[o.s - t.base].(deleted := t1.items[o.s - t.base].deleted);
  }

  /** The topic moves on and nothing is read. */
  lemma TopicMovesOn(w: World, t1: Topic)
    requires Inv(w) && Sound(t1) && Later(w.t, t1)
    ensures Inv(w.(t := t1))
  {
    var w1 := w.(t := t1);
    forall o | o in w.got ensures Genuine(t1, o) { StaysGenuine(w.t, t1, o); }
    if w.scan.Some? { LaterIsTransitive(w.scan.value.t, w.t, t1); }
    if w.reading.Some? { LaterIsTransitive(w.reading.value.t0, w.t, t1); }
    assert forall s :: (Known(w1, s) <==> Known(w, s)) && (Missed(w1, s) <==> Missed(w, s));
  }

  lemma ScanKeepsInv(w: World, step: Step)
    requires Inv(w) && (step.Look? || step.Begin?)
    ensures Inv(Do(w, step))
  {
    var w1 := Do(w, step);
    assert forall s :: (Known(w1, s) <==> Known(w, s)) && (Missed(w1, s) <==> Missed(w, s));
  }

  lemma StepKeepsInv(w: World, step: Step)
    requires Inv(w)
    ensures Inv(Do(w, step)) && Do(w, step).start == w.start && Do(w, step).t.base == w.t.base
  {
    match step
    case Walk(next) => WalkKeepsInv(w, next);
    case Look(_) => ScanKeepsInv(w, step);
    case Begin(_) => ScanKeepsInv(w, step);
    case _ =>
      TopicOnlyMovesOn(w, step);
      TopicMovesOn(w, Do(w, step).t);
  }

  lemma TopicOnlyMovesOn(w: World, step: Step)
    requires Sound(w.t) && (step.Append? || step.Delete? || step.Retain?)
    ensures Do(w, step) == w.(t := Do(w, step).t) && Sound(Do(w, step).t) && Later(w.t, Do(w, step).t)
  {
    if step.Append? { AppendKeepsSound(w.t, step.items); }
  }

  lemma AppendKeepsSound(t: Topic, items: seq<Item>)
    requires Sound(t)
    ensures Sound(t.(items := t.items + items))
  {
  }

  function Follower(t: Topic, start: int): World { World(t, start, start, None, None, [], {}, {}, {}, {}) }

  /** In every run of appends, voluntary deletes, floor advances, reclaims and reads, whatever
      their timestamps and whatever happens between the parts of a read: a seq the cursor passed
      was delivered, or lies in a reported gap, or was deleted or filtered when passed, unless it
      slipped through or was hidden, and exactly then; deliveries are the topic's records,
      strictly ascending, so none comes twice. */
  lemma {:induction false} PassedIsKnownExactlyWhen(t: Topic, start: int, steps: seq<Step>)
    requires Sound(t)
    ensures var w := Run(Follower(t, start), steps); Inv(w) && w.start == start && w.t.base == t.base
  {
    if steps != [] {
      var n := |steps| - 1;
      PassedIsKnownExactlyWhen(t, start, steps[..n]);
      StepKeepsInv(Run(Follower(t, start), steps[..n]), steps[n]);
    }
  }

  /** No retention pass runs while a read walks, and nothing appended between the read's scan and
      its walk is expired already. */
  ghost predicate Undisturbed(w: World, step: Step) {
    && (step.Retain? ==> w.reading.None?)
    && (step.Append? && w.scan.Some? ==>
          forall x :: x in step.items ==> !IsExpired(w.t.ttl, w.scan.value.now, x.ts))
  }

  ghost predicate AllUndisturbed(t: Topic, start: int, steps: seq<Step>) {
    steps == [] ||
    var n := |steps| - 1;
    AllUndisturbed(t, start, steps[..n]) && Undisturbed(Run(Follower(t, start), steps[..n]), steps[n])
  }

  /** Nothing above the scanned head is expired. */
  ghost predicate FreshSince(scan: Scan, t: Topic) {
    forall s :: Stale(t, scan.now, s) ==> s <= Head(scan.t)
  }

  /** Nothing was missed, and the read under way will miss nothing. */
  ghost predicate NoneMissed(w: World) {
    && w.slipped == {} && w.hidden == {}
    && (w.scan.Some? ==> FreshSince(w.scan.value, w.t))
    && (w.reading.Some? ==>
          w.reading.value.t0.first == w.t.first && FreshSince(w.reading.value.scan, w.reading.value.t0))
  }

  /** With timestamps in seq order no record behind an unexpired one is expired. */
  lemma TimelyHidesNone(r: Reading, t: Topic, s: int)
    requires Split(r, t) && FreshSince(r.scan, r.t0) && Timely(t.items)
    ensures !Hides(r, t, s)
  {
    forall p | Present(r.scan.t, p) && p < s && Stale(r.t0, r.scan.now, s) ensures Stale(r.scan.t, r.scan.now, p) {
      assert t.items[p - t.base] == r.t0.items[p - t.base].(deleted := t.items[p - t.base].deleted);
      assert r.t0.items[p - t.base] == r.scan.t.items[p - t.base].(deleted := r.t0.items[p - t.base].deleted);
      assert t.items[s - t.base] == r.t0.items[s - t.base].(deleted := t.items[s - t.base].deleted);
    }
  }

  lemma StepMissesNone(w: World, step: Step)
    requires Inv(w) && NoneMissed(w) && Undisturbed(w, step) && Timely(w.t.items)
    ensures NoneMissed(Do(w, step))
  {
    var w1 := Do(w, step);
    match step
    case Walk(next) =>
      if w.reading.Some? {
        forall s ensures !Hides(w.reading.value, w.t, s) { TimelyHidesNone(w.reading.value, w.t, s); }
      }
    case Append(items) =>
      if w.scan.Some? { AppendStaysFresh(w.scan.value, w.t, items); }
    case Delete(_, _) =>
      if w.scan.Some? { assert forall s :: Stale(w1.t, w.scan.value.now, s) ==> Stale(w.t, w.scan.value.now, s); }
    case Retain(_) =>
      if w.scan.Some? { assert forall s :: Stale(w1.t, w.scan.value.now, s) ==> Stale(w.t, w.scan.value.now, s); }
    case _ =>
  }

  lemma AppendStaysFresh(scan: Scan, t: Topic, items: seq<Item>)
    requires FreshSince(scan, t) && forall x :: x in items ==> !IsExpired(t.ttl, scan.now, x.ts)
    ensures FreshSince(scan, t.(items := t.items + items))
  {
    var t1 := t.(items := t.items + items);
    forall s | Head(t) < s <= Head(t1) ensures !Stale(t1, scan.now, s) { assert t1.items[s - t.base] in items; }
    assert forall s :: s <= Head(t) ==> (Stale(t1, scan.now, s) <==> Stale(t, scan.now, s));
  }

  lemma EarlierIsTimely(w: World, step: Step)
    requires Inv(w) && Timely(Do(w, step).t.items)
    ensures Timely(w.t.items)
  {
    var t1 := Do(w, step).t;
    forall i, j | 0 <= i < j < |w.t.items| ensures w.t.items[i].ts <= w.t.items[j].ts {
      assert t1.items[i].ts == w.t.items[i].ts && t1.items[j].ts == w.t.items[j].ts;
    }
  }

  /** No loss is silent in runs whose timestamps are in seq order, if no retention pass comes
      between the taking of the floors and the walk of a read and nothing already expired is
      appended between its scan and its walk. */
  lemma {:induction false} NoSilentLoss(t: Topic, start: int, steps: seq<Step>)
    requires Sound(t) && AllUndisturbed(t, start, steps) && Timely(Run(Follower(t, start), steps).t.items)
    ensures var w := Run(Follower(t, start), steps);
            NoneMissed(w) && forall s :: start < s <= w.cursor && t.base <= s ==> Known(w, s)
  {
    PassedIsKnownExactlyWhen(t, start, steps);
    if steps != [] {
      var n := |steps| - 1;
      var w := Run(Follower(t, start), steps[..n]);
      PassedIsKnownExactlyWhen(t, start, steps[..n]);
      EarlierIsTimely(w, steps[n]);
      NoSilentLoss(t, start, steps[..n]);
      StepMissesNone(w, steps[n]);
    }
  }

  /** Nothing was lost from the topic, and the reader is within it. */
  ghost predicate Lossless(t: Topic, cursor: int) {
    E.Involuntary(t.floors) < t.base && t.base - 1 <= cursor <= Head(t)
  }

  ghost predicate Unreported(w: World) {
    && w.gaps == {} && Lossless(w.t, w.cursor)
    && (w.reading.Some? ==>
          var t0 := w.reading.value.t0;
          Lossless(t0, w.cursor) && t0.base == w.t.base && Head(t0) <= Head(w.t))
  }

  lemma StepKeepsUnreported(w: World, step: Step)
    requires Unreported(w) && !step.Retain?
    ensures Unreported(Do(w, step))
  {
    if w.reading.Some? { DeletesAreSilent(w.reading.value.t0, w.cursor); }
  }

  /** Runs without retention, on a topic nothing was lost from: no gap is ever reported. */
  lemma {:induction false} DeletesNeverReport(t: Topic, start: int, steps: seq<Step>)
    requires Lossless(t, start) && forall k :: 0 <= k < |steps| ==> !steps[k].Retain?
    ensures Unreported(Run(Follower(t, start), steps))
  {
    if steps != [] {
      var n := |steps| - 1;
      DeletesNeverReport(t, start, steps[..n]);
      StepKeepsUnreported(Run(Follower(t, start), steps[..n]), steps[n]);
    }
  }

  /** What `Diff` answers once its retention pass is done is such a read, with nothing between
      its parts. */
  lemma DiffIsRead(w: World, now: int, t1: Topic, req: Request, r: Response)
    requires Retained(w.t, t1) && Scanned(w.t, now, t1.floors.expiry)
    requires Answers(t1, req, now, r) && req.from == w.cursor <= Head(w.t)
    ensures var w1 := Do(Do(Do(Do(w, Look(now)), Retain(t1)), Begin(req)), Walk(r.next));
            && w1.cursor == r.next && w1.got == w.got + r.records && w1.slipped == w.slipped
            && w1.gaps == w.gaps + GapSeqs(r.tombstone)
  {
    var w0 := Do(Do(Do(w, Look(now)), Retain(t1)), Begin(req));
    assert w0.reading == Some(Reading(req, Scan(now, w.t), t1)) && w0.t == t1;
    var w1 := Do(w0, Walk(r.next));
    assert forall s :: s in w1.slipped ==> s in w.slipped;
  }

  /** A record appended behind a reader that has caught up is delivered by its next read, if it is not
      deleted, filtered or expired. */
  lemma AppendedIsDelivered(w: World, item: Item, now: int, req: Request, w1: World)
    requires Sound(w.t) && w.cursor == Head(w.t) && req.from == w.cursor && w.reading.None?
    requires Scanned(w.t.(items := w.t.items + [item]), now, w.t.floors.expiry)
    requires E.Involuntary(w.t.floors) <= w.cursor && w.t.first <= w.cursor + 1
    requires Evaluate(req.nodes, w.t.ttl, now, item) == Deliver
    requires w1 == Do(Do(Do(Do(w, Append([item])), Look(now)), Begin(req)), Walk(w.cursor + 1))
    ensures w1.cursor == w.cursor + 1 && w1.got == w.got + [Out(w.cursor + 1, item)] && w1.gaps == w.gaps
  {
    var t1, s := w.t.(items := w.t.items + [item]), w.cursor + 1;
    assert Get(t1, s) == Some(item) && Resume(t1, w.cursor) == (w.cursor, None);
    assert Delivered(t1, req, now, w.cursor, w.cursor) == [];
    assert Delivered(t1, req, now, w.cursor, s) == [Out(s, item)];
  }

  /** A follower's read whose scan found nothing to do has taken the floors. */
  function Begun(t: Topic, now: int, req: Request): World {
    Follower(t, 0).(reading := Some(Reading(req, Scan(now, t), t)))
  }

  lemma BeginIsBegun(t: Topic, now: int, req: Request)
    requires Scanned(t, now, t.floors.expiry) && req.from == 0 <= Head(t)
    ensures Do(Do(Follower(t, 0), Look(now)), Begin(req)) == Begun(t, now, req)
  {
  }

  lemma ThreeSteps(w: World, a: Step, b: Step, c: Step)
    ensures Run(w, [a, b, c]) == Do(Do(Do(w, a), b), c)
  {
    assert [a][..0] == [] && [a, b][..1] == [a] && [a, b, c][..2] == [a, b];
    assert Run(w, [a]) == Do(w, a);
    assert Run(w, [a, b]) == Do(Do(w, a), b);
  }

  lemma FourSteps(w: World, a: Step, b: Step, c: Step, d: Step)
    ensures Run(w, [a, b, c, d]) == Do(Do(Do(Do(w, a), b), c), d)
  {
    ThreeSteps(w, a, b, c);
    assert [a, b, c, d][..3] == [a, b, c];
  }

  /** A topic of two records. */
  function Two(a: Item, b: Item, ttl: nat): Topic { Topic(1, [a, b], 1, E.Floors(0, 0, 0, 0), ttl) }

  lemma TwoBegins(a: Item, b: Item, ttl: nat)
    ensures var t := Two(a, b, ttl); Sound(t) && Head(t) == 2 && Resume(t, 0) == (0, None)
  {
  }

  lemma WalkSlips(a: Item, b: Item, req: Request, w: World)
    requires !a.deleted && a.node == None && req.from == 0
    requires w == Begun(Two(a, b, 0), 0, req).(t := Two(a, b, 0).(floors := E.Floors(1, 0, 0, 0), first := 2))
    ensures var w1 := Do(w, Walk(1)); w1.slipped == {1} && w1.cursor == 1 && !Known(w1, 1)
  {
    TwoBegins(a, b, 0);
    var r := w.reading.value;
    assert !Silent(w.t, req.nodes, 1) && Slips(r, w.t, 1) && !Delivers(w.t, req, 0, 1);
    assert Delivered(w.t, req, 0, 0, 0) == [] && Delivered(w.t, req, 0, 0, 1) == [];
  }

  /** A loss: a cap evicts and reclaims seq 1 between the taking of the floors and the walk. */
  lemma SplitReadLoses(a: Item, b: Item, req: Request)
    requires !a.deleted && a.node == None && req.from == 0
    ensures var t1 := Two(a, b, 0).(floors := E.Floors(1, 0, 0, 0), first := 2);
            var w := Run(Follower(Two(a, b, 0), 0), [Look(0), Begin(req), Retain(t1), Walk(1)]);
            Sound(Two(a, b, 0)) && w.slipped == {1} && w.cursor == 1 && !Known(w, 1)
  {
    var t := Two(a, b, 0);
    var t1 := t.(floors := E.Floors(1, 0, 0, 0), first := 2);
    TwoBegins(a, b, 0);
    assert Scanned(t, 0, 0) by { assert !Stale(t, 0, 1) && !Stale(t, 0, 2); }
    BeginIsBegun(t, 0, req);
    assert Do(Begun(t, 0, req), Retain(t1)) == Begun(t, 0, req).(t := t1);
    WalkSlips(a, b, req, Begun(t, 0, req).(t := t1));
    FourSteps(Follower(t, 0), Look(0), Begin(req), Retain(t1), Walk(1));
  }

  lemma WalkHides(a: Item, b: Item, ttl: nat, now: int, req: Request)
    requires !a.deleted && !b.deleted && a.node == b.node == None && req.from == 0
    requires ttl > 0 && b.ts < a.ts && now - a.ts <= ttl < now - b.ts
    ensures var w := Do(Begun(Two(a, b, ttl), now, req), Walk(2));
            w.cursor == 2 && w.got == [Out(1, a)] && w.hidden == {2} && !Known(w, 2)
  {
    var t, w := Two(a, b, ttl), Begun(Two(a, b, ttl), now, req);
    TwoBegins(a, b, ttl);
    assert Present(t, 1) && !Stale(t, now, 1) && Stale(t, now, 2);
    assert !Silent(t, req.nodes, 1) && !Silent(t, req.nodes, 2);
    assert Hides(w.reading.value, t, 2) && !Hides(w.reading.value, t, 1);
    assert Delivers(t, req, now, 1) && !Delivers(t, req, now, 2);
    assert Delivered(t, req, now, 0, 0) == [] && Delivered(t, req, now, 0, 1) == [Out(1, a)];
    assert Delivered(t, req, now, 0, 2) == [Out(1, a)];
  }

  /** Another: seq 2 is stamped before seq 1, as when its writer read the clock first and got the
      lock second. It expires first; the scan stops at seq 1, and the read delivers seq 1 and
      passes seq 2 without a word. */
  lemma HiddenBehindYounger(a: Item, b: Item, ttl: nat, now: int, req: Request)
    requires !a.deleted && !b.deleted && a.node == b.node == None && req.from == 0
    requires ttl > 0 && b.ts < a.ts && now - a.ts <= ttl < now - b.ts
    ensures var w := Run(Follower(Two(a, b, ttl), 0), [Look(now), Begin(req), Walk(2)]);
            && Sound(Two(a, b, ttl)) && w.cursor == 2 && w.got == [Out(1, a)] && w.hidden == {2} && !Known(w, 2)
  {
    var t := Two(a, b, ttl);
    TwoBegins(a, b, ttl);
    assert Scanned(t, now, 0) by { assert Present(t, 1) && !Stale(t, now, 1); }
    BeginIsBegun(t, now, req);
    ThreeSteps(Follower(t, 0), Look(now), Begin(req), Walk(2));
    WalkHides(a, b, ttl, now, req);
  }
}
