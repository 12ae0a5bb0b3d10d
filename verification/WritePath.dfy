/** WAL-first publish of an fsync topic, and its crash recovery: `write` and `delete` in
    `src/engine/mod.rs`, the group commit in `src/storage/wal.rs` and replay in
    `src/engine/recovery.rs`, as steps of writers, the WAL writer and crashes. */
module WritePath {
  import opened Common
  import opened TopicLog
  import opened TopicSnapshot

  /** What a publish ticket stands for: a staged batch at `start`, or a pinned delete. */
  datatype Work = Batch(start: nat, recs: seq<Rec>) | Del(sel: Selector)

  /** A ticket whose WAL commit is decided. */
  datatype Decided = Decided(work: Work, ok: bool)

  /** The topic. `log` is all that became durable. The first `visible` slots are published, the
      rest are staged. `decided` and then `pending` are the tickets between the append lock and
      their publish turn. `image` is the last snapshot, and recovery replays the log from
      position `from`. The others are history:
      `log0` is the log, `born` the published slots and `head0` how many the head counted at the
      last snapshot or recovery, `applied` are the frames applied since, and `rolled` the seqs
      behind those slots that no frame was logged for; outstanding batches begin at slot `edge`;
      `acked` are the acknowledged records recoveries kept, and `lost` the seqs they lost;
      `doomed` are the seqs a committed delete struck;
      `broken`: a commit has failed since the last recovery, or the last snapshot that
      covered all rolled-back seqs. */
  datatype World = World(
    base: nat,
    log: seq<Frame>,
    slots: seq<Slot>,
    visible: nat,
    decided: seq<Decided>,
    pending: seq<Work>,
    image: Image,
    from: nat,
    log0: seq<Frame>,
    born: seq<Slot>,
    head0: nat,
    applied: seq<Frame>,
    edge: nat,
    acked: map<nat, Rec>,
    lost: set<nat>,
    rolled: set<nat>,
    doomed: set<nat>,
    broken: bool)

  datatype Step =
    | Stage(recs: seq<Rec>)           // stage, enqueue and take a ticket, under the append lock
    | StageDelete(before: Option<nat>, filter: Option<Filter>)
    | Commit(k: nat, ok: bool)        // the WAL writer synced, or failed and rewound, k submissions
    | Turn                            // the first decided ticket publishes, rolls back or deletes
    | Snapshot(k: nat, front: nat)    // of the drained topic, its log position taken earlier, the
                                      // dead slots below `front` reclaimed
    | Crash(j: nat)                   // the durable log and j more frames survive

  function Lives(recs: seq<Rec>): seq<Slot> { seq(|recs|, i requires 0 <= i < |recs| => Live(recs[i])) }

  function Frames(work: Work): seq<Frame> {
    match work
    case Batch(start, recs) => seq(|recs|, i requires 0 <= i < |recs| => Append(start + i, recs[i]))
    case Del(sel) => [Delete(sel)]
  }

  function AllFrames(works: seq<Work>): seq<Frame> {
    if works == [] then [] else Frames(works[0]) + AllFrames(works[1..])
  }

  function OkFrames(decided: seq<Decided>): seq<Frame> {
    if decided == [] then [] else (if decided[0].ok then Frames(decided[0].work) else []) + OkFrames(decided[1..])
  }

  function Decide(works: seq<Work>, ok: bool): seq<Decided> {
    seq(|works|, i requires 0 <= i < |works| => Decided(works[i], ok))
  }

  function Start(base: nat): World {
    World(base, [], [], 0, [], [], Image(base, 0, [], base - 1), 0, [], [], 0, [], 0, map[], {}, {}, {}, false)
  }

  function IndexOf(w: World): Index { Index(w.base, w.slots, w.base + w.visible - 1, w.base + w.visible - 1) }

  /** The log behind the snapshot's position. */
  function Behind(log: seq<Frame>, from: nat): seq<Frame> { if from <= |log| then log[from..] else [] }

  /** Recovery: restore a snapshot, replay the surviving log behind it, reconcile. */
  function Recover(image: Image, log: seq<Frame>, from: nat): Index {
    Reconcile(TakeAll(Restore(image), Behind(log, from)))
  }

  /** A delete among the frames picks this record. */
  ghost predicate StruckBy(frames: seq<Frame>, s: nat, slot: Slot) {
    exists k :: 0 <= k < |frames| && Strikes(frames[k], s, slot)
  }

  /** The seqs of the records deletes among the frames pick. */
  ghost function Struck(base: nat, slots: seq<Slot>, frames: seq<Frame>): set<nat> {
    var all := Range(base, base + |slots|);
    set s | s in all && StruckBy(frames, s, slots[s - base])
  }

  /** The frames that survive a crash beyond those applied: the committed ones, and `j` more. */
  function InFlight(w: World, j: nat): seq<Frame> {
    var rest := AllFrames(w.pending);
    OkFrames(w.decided) + rest[..if j <= |rest| then j else |rest|]
  }

  function Survivors(w: World, j: nat): seq<Frame> {
    var rest := AllFrames(w.pending);
    w.log + rest[..if j <= |rest| then j else |rest|]
  }

  /** What a recovery to index `x` keeps of the acknowledged records: those that are there, and
      of the deleted ones those whose seq is taken. */
  ghost function StillAcked(base: nat, acked: map<nat, Rec>, doomed: set<nat>, x: Index): map<nat, Rec> {
    map s | s in acked && base <= s <= x.head && s < base + |x.slots|
            && (x.slots[s - base] == Live(acked[s]) || s in doomed) :: acked[s]
  }

  ghost function Recovered(w: World, j: nat): World {
    var log := Survivors(w, j);
    var x := Recover(w.image, log, w.from);
    var visible: nat := Max(x.head + 1 - w.base, 0);
    var doomed := w.doomed + Struck(w.base, w.slots, InFlight(w, j));
    var acked := StillAcked(w.base, w.acked, doomed, x);
    var rolled := Range(w.base + visible, w.base + |x.slots|);
    w.(log := log, log0 := log, born := x.slots[..Min(visible, |x.slots|)], head0 := visible, applied := [],
       edge := |x.slots|, slots := x.slots, visible := visible, decided := [], pending := [],
       acked := acked, lost := w.lost + (w.acked.Keys - acked.Keys), rolled := rolled, doomed := doomed,
       broken := rolled != {})
  }

  /** A snapshot of the drained topic; the log position was taken after the last snapshot or
      recovery, and writes may have been applied since. */
  function Captured(w: World, k: nat, front: nat): World {
    var rolled := set s | s in w.rolled && s >= w.base + w.visible;
    w.(image := Capture(IndexOf(w), front), from := k, log0 := w.log,
       born := w.slots[..Min(w.visible, |w.slots|)], head0 := w.visible, applied := [],
       rolled := rolled, broken := rolled != {})
  }

  /** The slots from `lo` up to `hi` marked deleted in place. */
  function Blank(slots: seq<Slot>, lo: nat, hi: nat): (r: seq<Slot>)
    ensures |r| == |slots| && forall i :: 0 <= i < |slots| ==> r[i] == if lo <= i < hi then Hole else slots[i]
  {
    seq(|slots|, i requires 0 <= i < |slots| => if lo <= i < hi then Hole else slots[i])
  }

  /** The acknowledged records once a batch is published. */
  function WithBatch(acked: map<nat, Rec>, start: nat, recs: seq<Rec>): map<nat, Rec> {
    map s | s in acked.Keys + Range(start, start + |recs|) :: if start <= s < start + |recs| then recs[s - start]
        else acked[s]
  }

  /** The seqs of the records a selector picks. */
  function Picked(base: nat, slots: seq<Slot>, sel: Selector): set<nat> {
    var all := Range(base, base + |slots|);
    set s | s in all && Picks(sel, s, slots[s - base])
  }

  /** The publish turn of the first decided ticket. */
  function TurnOf(w: World, d: Decided): World
    requires d.work.Batch? ==> d.work.start >= w.base && d.work.start - w.base + |d.work.recs| <= |w.slots|
  {
    match d.work
    case Batch(start, recs) =>
      var i := start - w.base;
      if d.ok then
        w.(visible := i + |recs|, edge := i + |recs|, applied := w.applied + Frames(d.work),
           acked := WithBatch(w.acked, start, recs))
      else
        w.(slots := Blank(w.slots, i, i + |recs|), edge := i + |recs|,
            rolled := w.rolled + Range(start, start + |recs|))
    case Del(sel) =>
      if d.ok then
        w.(slots := Erase(w.base, w.slots, sel), applied := w.applied + Frames(d.work),
           doomed := w.doomed + Picked(w.base, w.slots, sel))
      else w
  }

  predicate InSlots(w: World, work: Work) {
    work.Batch? ==> work.start >= w.base && work.start - w.base + |work.recs| <= |w.slots|
  }

  ghost function Do(w: World, step: Step): World {
    match step
    case Stage(recs) =>
      if recs == [] then w else
      var start := w.base + |w.slots|;
      w.(slots := w.slots + Lives(recs), pending := w.pending + [Batch(start, recs)],
         doomed := w.doomed - Range(start, start + |recs|))
    case StageDelete(before, filter) =>
      w.(pending := w.pending + [Del(Selector(before, filter, w.base + w.visible))])
    case Commit(k, ok) =>
      if k > |w.pending| then w else
      w.(pending := w.pending[k..], decided := w.decided + Decide(w.pending[..k], ok),
         log := if ok then w.log + AllFrames(w.pending[..k]) else w.log,
         broken := w.broken || !ok)
    case Turn =>
      if w.decided == [] || !InSlots(w, w.decided[0].work) then w else
      TurnOf(w, w.decided[0]).(decided := w.decided[1..])
    case Snapshot(k, front) =>
      if w.decided != [] || w.pending != [] || !(|w.log0| <= k <= |w.log|) || !DeadFront(w.slots, front) then w
      else Captured(w, k, front)
    case Crash(j) => Recovered(w, j)
  }

  ghost function Run(w: World, steps: seq<Step>): World {
    if steps == [] then w else Do(Run(w, steps[..|steps| - 1]), steps[|steps| - 1])
  }

  // ---- replay against padding -----------------------------------------------

  /** One frame applied live: an append may leave rolled-back seqs below it as holes. */
  function Show(base: nat, slots: seq<Slot>, f: Frame): seq<Slot> {
    match f
    case Append(s, rec) =>
      if s < base + |slots| then slots else slots + Holes(s - base - |slots|) + [Live(rec)]
    case Delete(sel) => Erase(base, slots, sel)
    case _ => slots
  }

  /** What frames applied in order show, started from `slots`. */
  function Shown(base: nat, slots: seq<Slot>, frames: seq<Frame>): (r: seq<Slot>)
    ensures |slots| <= |r|
  {
    if frames == [] then slots else Show(base, Shown(base, slots, frames[..|frames| - 1]), frames[|frames| - 1])
  }

  function Appended(frames: seq<Frame>): set<nat> {
    if frames == [] then {} else
    var f := frames[|frames| - 1];
    Appended(frames[..|frames| - 1]) + (if f.Append? then {f.s} else {})
  }

  /** Appends come in ascending order above what is shown, deletes are pinned at or below it, and
      there is no other kind. */
  ghost predicate Climbs(base: nat, slots: seq<Slot>, frames: seq<Frame>) {
    frames == [] ||
    var n := |frames| - 1;
    && Climbs(base, slots, frames[..n])
    && (frames[n].Append? ==> frames[n].s >= base + |Shown(base, slots, frames[..n])|)
    && (frames[n].Delete? ==> frames[n].sel.bound <= base + |Shown(base, slots, frames[..n])|)
    && (frames[n].Append? || frames[n].Delete?)
  }

  lemma {:induction false} ClimbsIsPlain(base: nat, slots: seq<Slot>, frames: seq<Frame>)
    requires Climbs(base, slots, frames)
    ensures Plain(frames)
  {
    if frames != [] { ClimbsIsPlain(base, slots, frames[..|frames| - 1]); }
  }

  /** What is shown reflects every frame shown. */
  lemma {:induction false} ShownReflects(base: nat, slots: seq<Slot>, frames: seq<Frame>, k: nat)
    requires Climbs(base, slots, frames) && k < |frames|
    ensures Reflected(At(base, Shown(base, slots, frames)), frames[k])
  {
    var n := |frames| - 1;
    if k < n {
      ShownReflects(base, slots, frames[..n], k);
      ShowStaysReflected(base, Shown(base, slots, frames[..n]), frames[k], frames[n]);
    }
  }

  lemma ShowStaysReflected(base: nat, slots: seq<Slot>, f: Frame, g: Frame)
    requires Reflected(At(base, slots), f)
    ensures Reflected(At(base, Show(base, slots, g)), f)
  {
  }

  lemma {:induction false} ShownConcat(base: nat, slots: seq<Slot>, a: seq<Frame>, b: seq<Frame>)
    ensures Shown(base, slots, a + b) == Shown(base, Shown(base, slots, a), b)
  {
    if b == [] {
      assert a + b == a;
    } else {
      var n := |b| - 1;
      ShownConcat(base, slots, a, b[..n]);
      ConcatInit(a, b);
    }
  }

  lemma {:induction false} AppendedConcat(a: seq<Frame>, b: seq<Frame>)
    ensures Appended(a + b) == Appended(a) + Appended(b)
  {
    if b == [] {
      assert a + b == a;
    } else {
      var n := |b| - 1;
      AppendedConcat(a, b[..n]);
      ConcatInit(a, b);
    }
  }

  lemma {:induction false} ClimbsConcat(base: nat, slots: seq<Slot>, a: seq<Frame>, b: seq<Frame>)
    requires Climbs(base, slots, a) && Climbs(base, Shown(base, slots, a), b)
    ensures Climbs(base, slots, a + b)
  {
    if b == [] {
      assert a + b == a;
    } else {
      var n := |b| - 1;
      ClimbsConcat(base, slots, a, b[..n]);
      ShownConcat(base, slots, a, b[..n]);
      ConcatInit(a, b);
    }
  }

  /** Appends of climbing frames lie between what was shown and what is shown. */
  lemma {:induction false} AppendedBounds(base: nat, slots: seq<Slot>, frames: seq<Frame>)
    requires Climbs(base, slots, frames)
    ensures forall s :: s in Appended(frames) ==> base + |slots| <= s < base + |Shown(base, slots, frames)|
  {
    if frames != [] {
      AppendedBounds(base, slots, frames[..|frames| - 1]);
    }
  }

  /** Replay yields exactly the shown slots below the first missing seq: every seq it adds
      was appended, and the one it stops at was not. */
  lemma {:induction false} ReplayStopsAtGap(t: Topic, frames: seq<Frame>)
    requires Climbs(t.base, t.slots, frames)
    ensures var r, shown := Replay(t, frames), Shown(t.base, t.slots, frames);
            && |r.slots| <= |shown| && r.slots == shown[..|r.slots|]
            && (forall s :: Next(t) <= s < Next(r) ==> s in Appended(frames))
            && (|r.slots| < |shown| ==> Next(r) !in Appended(frames))
  {
    if frames != [] {
      var n := |frames| - 1;
      ReplayStopsAtGap(t, frames[..n]);
      AppendedBounds(t.base, t.slots, frames[..n]);
      var shown, r := Shown(t.base, t.slots, frames[..n]), Replay(t, frames[..n]);
      match frames[n]
      case Append(s, rec) =>
        if s == Next(r) {
          assert |r.slots| == |shown|;
        }
      case Delete(sel) =>
    }
  }
}
