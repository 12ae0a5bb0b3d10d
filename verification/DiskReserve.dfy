/** Seq reservation of a disk topic: its records are written but not synced before they are
    published, so a synced head ceiling keeps a crash from handing a seq out again
    (`ensure_disk_head_reserved` and `apply_head_watermarks` in `src/engine/mod.rs`), unless a
    snapshot came after the ceiling (`restore_topic` in `src/engine/snapshot.rs`). */
module DiskReserve {
  import opened Common
  import opened TopicLog
  import opened TopicSnapshot
  import W = WritePath

  const RESERVE_AHEAD: nat := 256

  /** The topic: `log[..synced]` is durable, the rest of the log may be lost; recovery restores
      `image` and replays the log from position `from`; `head` is the last published seq;
      `published` is every seq ever published, over all crashes. */
  datatype World = World(
    base: nat,
    log: seq<Frame>,
    synced: nat,
    slots: seq<Slot>,
    head: int,
    reserved: int,
    image: Image,
    from: nat,
    pending: seq<W.Work>,
    decided: seq<W.Decided>,
    published: set<nat>)

  datatype Step =
    | Stage(recs: seq<Rec>)
    | StageDelete(before: Option<nat>, filter: Option<Filter>)
    | Commit(k: nat, ok: bool)      // k submissions written (not synced), or failed
    | Turn(syncOk: bool)            // publish turn; `syncOk`: a watermark sync would succeed
    | Sync(upTo: nat)               // some group sync reaches this far
    | Snapshot(k: nat, front: nat)  // of the drained topic; its log position is synced
    | Crash(kept: nat)              // the durable log and any further prefix survive

  function Start(base: nat): World {
    World(base, [], 0, [], base - 1, base - 1, Image(base, 0, [], base - 1), 0, [], [], {})
  }

  /** Reserve past `h` if it is not strictly below the ceiling: a synced watermark a block
      ahead, or no change when the sync fails. */
  function Reserve(w: World, h: nat, syncOk: bool): World {
    if h < w.reserved || !syncOk then w else
    var target := Max(h, w.reserved) + RESERVE_AHEAD;
    var log := w.log + [HeadWatermark(target)];
    w.(log := log, synced := |log|, reserved := target)
  }

  predicate Fits(w: World, work: W.Work) {
    work.Batch? ==> work.recs != [] && work.start >= w.base && work.start - w.base + |work.recs| <= |w.slots|
  }

  /** The turn of a delete. */
  function DeleteTurn(w: World, sel: Selector, ok: bool): World {
    if ok then w.(slots := Erase(w.base, w.slots, sel)) else w
  }

  function PublishTurn(w: World, work: W.Work, ok: bool, syncOk: bool): World
    requires work.Batch? && Fits(w, work)
  {
    var n := |work.recs|;
    var lo, last := work.start - w.base, work.start + n - 1;
    var rolledBack := w.(slots := W.Blank(w.slots, lo, lo + n));
    if !ok then rolledBack
    else if last < w.reserved || syncOk then
      Reserve(w, last, syncOk).(head := last, published := w.published + Range(work.start, work.start + n))
    else rolledBack
  }

  function IndexOf(w: World): Index { Index(w.base, w.slots, w.head, w.reserved) }

  ghost function Do(w: World, step: Step): World {
    match step
    case Stage(recs) =>
      if recs == [] then w else
      w.(slots := w.slots + W.Lives(recs), pending := w.pending + [W.Batch(w.base + |w.slots|, recs)])
    case StageDelete(before, filter) =>
      w.(pending := w.pending + [W.Del(Selector(before, filter, Max(w.head + 1, 0)))])
    case Commit(k, ok) =>
      if k > |w.pending| then w else
      w.(pending := w.pending[k..], decided := w.decided + W.Decide(w.pending[..k], ok),
         log := if ok then w.log + W.AllFrames(w.pending[..k]) else w.log)
    case Turn(syncOk) =>
      if w.decided == [] || !Fits(w, w.decided[0].work) then w else
      var d := w.decided[0];
      (if d.work.Batch? then PublishTurn(w, d.work, d.ok, syncOk) else DeleteTurn(w, d.work.sel, d.ok))
        .(decided := w.decided[1..])
    case Sync(upTo) => if w.synced <= upTo <= |w.log| then w.(synced := upTo) else w
    case Snapshot(k, front) =>
      if w.decided != [] || w.pending != [] || !(w.from <= k <= |w.log|) || !DeadFront(w.slots, front) then w else
      w.(image := Capture(IndexOf(w), front), from := k, synced := Max(w.synced, k))
    case Crash(kept) =>
      if !(w.synced <= kept <= |w.log|) then w else
      var x := W.Recover(w.image, w.log[..kept], w.from);
      World(w.base, w.log[..kept], kept, x.slots, x.head, x.reserved, w.image, w.from, [], [], w.published)
  }

  ghost function Run(w: World, steps: seq<Step>): World {
    if steps == [] then w else Do(Run(w, steps[..|steps| - 1]), steps[|steps| - 1])
  }

  // ---- what recovery reaches ------------------------------------------------

  /** How many slots an index ends up with once its reservation is reconciled. */
  function Reach(x: Index): nat { |Reconcile(x).slots| }

  /** Another frame never makes recovery reach less. */
  lemma TakeReaches(x: Index, f: Frame)
    ensures Reach(x) <= Reach(Take(x, f))
  {
  }

  lemma {:induction false} MoreReaches(x: Index, a: seq<Frame>, b: seq<Frame>)
    ensures Reach(TakeAll(x, a)) <= Reach(TakeAll(x, a + b))
  {
    if b == [] {
      assert a + b == a;
    } else {
      var n := |b| - 1;
      MoreReaches(x, a, b[..n]);
      ConcatInit(a, b);
      TakeReaches(TakeAll(x, a + b[..n]), b[n]);
    }
  }

  /** A reservation: the one an image comes back with, or a watermark behind it. */
  predicate Reserves(image: Image, frames: seq<Frame>, h: int) {
    h == image.head || (h >= 0 && HeadWatermark(h) in frames)
  }

  /** Replay ends with the highest of them. */
  lemma {:induction false} ReplayFindsCeiling(x: Index, log: seq<Frame>)
    ensures var y := TakeAll(x, log);
            && x.reserved <= y.reserved && (Level(x) ==> Level(y))
            && (forall h: nat :: HeadWatermark(h) in log ==> h <= y.reserved)
            && (y.reserved > x.reserved ==> y.reserved >= 0 && HeadWatermark(y.reserved) in log)
  {
    if log != [] {
      var n := |log| - 1;
      ReplayFindsCeiling(x, log[..n]);
      assert forall f :: f in log ==> f in log[..n] || f == log[n];
      assert forall f :: f in log[..n] ==> f in log;
    }
  }

  /** The durable frames behind the snapshot. */
  function Durable(w: World): seq<Frame> { W.Behind(w.log[..Min(w.synced, |w.log|)], w.from) }

  /** What is durable covers `s`: the slots it replays to, or a reservation above their head. */
  ghost predicate Covers(image: Image, frames: seq<Frame>, s: nat) {
    var x := TakeAll(Restore(image), frames);
    s < x.base + |x.slots| || exists h: int :: Reserves(image, frames, h) && x.head < h && s <= h
  }

  lemma CoversIsReach(image: Image, frames: seq<Frame>, s: nat)
    ensures Covers(image, frames, s) <==> s < image.base + Reach(TakeAll(Restore(image), frames))
  {
    var x := TakeAll(Restore(image), frames);
    ReplayFindsCeiling(Restore(image), frames);
    assert Reserves(image, frames, x.reserved);
    assert forall h: int :: Reserves(image, frames, h) ==> h <= x.reserved;
  }

  /** For an image whose end is where its head says, level or below a watermark. */
  lemma CoversWhenLevel(image: Image, frames: seq<Frame>, s: nat)
    requires Level(Restore(image))
    ensures Covers(image, frames, s) <==>
            || s < image.base + |TakeAll(Restore(image), frames).slots|
            || exists h: nat :: HeadWatermark(h) in frames && s <= h
  {
    var x := TakeAll(Restore(image), frames);
    ReplayFindsCeiling(Restore(image), frames);
    HeadOnlyRises(Restore(image), frames);
    if exists h: nat :: HeadWatermark(h) in frames && s <= h {
      var h: nat :| HeadWatermark(h) in frames && s <= h;
      assert Reserves(image, frames, h);
    }
  }

  /** On a level index replay never lowers the head. */
  lemma {:induction false} HeadOnlyRises(x: Index, frames: seq<Frame>)
    requires Level(x)
    ensures x.head <= TakeAll(x, frames).head && Level(TakeAll(x, frames))
  {
    if frames != [] { HeadOnlyRises(x, frames[..|frames| - 1]); }
  }

  // ---- no published seq is handed out again ---------------------------------

  /** The log up to the snapshot's position is synced. */
  ghost predicate Orderly(w: World) { w.from <= w.synced <= |w.log| && w.image.base == w.base }

  /** Every published seq is taken. */
  ghost predicate Safe(w: World) { forall s :: s in w.published ==> s < w.base + |w.slots| }

  ghost predicate Guarded(w: World) { forall s :: s in w.published ==> Covers(w.image, Durable(w), s) }

  lemma StepKeepsOrderly(w: World, step: Step)
    requires Orderly(w)
    ensures Orderly(Do(w, step))
  {
  }

  lemma {:induction false} RunKeepsOrderly(base: nat, steps: seq<Step>)
    ensures Orderly(Run(Start(base), steps))
  {
    if steps != [] {
      RunKeepsOrderly(base, steps[..|steps| - 1]);
      StepKeepsOrderly(Run(Start(base), steps[..|steps| - 1]), steps[|steps| - 1]);
    }
  }

  /** How many slots a crash leaves. */
  function Left(w: World, kept: nat): nat
    requires kept <= |w.log|
  {
    |W.Recover(w.image, w.log[..kept], w.from).slots|
  }

  /** The crash that keeps least leaves least. */
  lemma LeastIsKept(w: World, kept: nat)
    requires Orderly(w) && w.synced <= kept <= |w.log|
    ensures Left(w, w.synced) <= Left(w, kept)
    ensures Left(w, w.synced) == Reach(TakeAll(Restore(w.image), Durable(w)))
  {
    var more := w.log[w.synced..kept];
    assert w.log[..kept][w.from..] == w.log[..w.synced][w.from..] + more;
    MoreReaches(Restore(w.image), Durable(w), more);
  }

  /** A seq is taken after every crash exactly when what is durable covers it. */
  lemma CoveredExactlyWhen(w: World, s: nat)
    requires Orderly(w)
    ensures Covers(w.image, Durable(w), s) <==>
            forall kept :: w.synced <= kept <= |w.log| ==> s < w.base + Left(w, kept)
  {
    CoversIsReach(w.image, Durable(w), s);
    LeastIsKept(w, w.synced);
    forall kept | w.synced <= kept <= |w.log| ensures Left(w, w.synced) <= Left(w, kept) { LeastIsKept(w, kept); }
  }

  /** Every crash finds all published seqs covered. */
  ghost predicate GuardedCrashes(base: nat, steps: seq<Step>) {
    steps == [] ||
    var n := |steps| - 1;
    GuardedCrashes(base, steps[..n]) && (steps[n].Crash? ==> Guarded(Run(Start(base), steps[..n])))
  }

  /** Whatever unsynced tails its crashes were to lose, every published seq would still be taken. */
  ghost predicate SafeCrashes(base: nat, steps: seq<Step>) {
    steps == [] ||
    var n := |steps| - 1;
    SafeCrashes(base, steps[..n]) && (steps[n].Crash? ==> SafeAfterAny(Run(Start(base), steps[..n])))
  }

  ghost predicate SafeAfterAny(w: World) {
    forall kept :: w.synced <= kept <= |w.log| ==> forall s :: s in w.published ==> s < w.base + Left(w, kept)
  }

  lemma GuardedIsSafeAfterAny(w: World)
    requires Orderly(w)
    ensures Guarded(w) <==> SafeAfterAny(w)
  {
    forall s | s in w.published
      ensures Covers(w.image, Durable(w), s) <==>
              forall kept :: w.synced <= kept <= |w.log| ==> s < w.base + Left(w, kept)
    {
      CoveredExactlyWhen(w, s);
    }
  }

  /** In every run, whatever unsynced tails its crashes lose, no published seq is ever free again, if
      and only if each crash finds every published seq covered by the slots its durable frames
      replay to or by a reservation above them. */
  lemma {:induction false} NeverFreeExactlyWhen(base: nat, steps: seq<Step>)
    ensures GuardedCrashes(base, steps) <==> SafeCrashes(base, steps)
  {
    if steps != [] {
      var n := |steps| - 1;
      NeverFreeExactlyWhen(base, steps[..n]);
      RunKeepsOrderly(base, steps[..n]);
      GuardedIsSafeAfterAny(Run(Start(base), steps[..n]));
    }
  }

  lemma StepKeepsSafe(w: World, step: Step)
    requires Safe(w) && (step.Crash? ==> SafeAfterAny(w))
    ensures Safe(Do(w, step))
  {
    if step.Crash? && w.synced <= step.kept <= |w.log| {
      assert forall s :: s in w.published ==> s < w.base + Left(w, step.kept);
    }
  }

  lemma {:induction false} RunKeepsSafe(base: nat, steps: seq<Step>)
    requires SafeCrashes(base, steps)
    ensures Safe(Run(Start(base), steps))
  {
    if steps != [] {
      RunKeepsSafe(base, steps[..|steps| - 1]);
      StepKeepsSafe(Run(Start(base), steps[..|steps| - 1]), steps[|steps| - 1]);
    }
  }

  /** A published seq stays published. */
  lemma StepGrowsPublished(w: World, step: Step, s: nat)
    requires s in w.published
    ensures s in Do(w, step).published
  {
  }

  lemma RunSnoc(base: nat, steps: seq<Step>)
    requires steps != []
    ensures var n := |steps| - 1; Run(Start(base), steps) == Do(Run(Start(base), steps[..n]), steps[n])
  {
  }

  lemma {:induction false} PublishedGrows(base: nat, steps: seq<Step>, m: nat, s: nat)
    requires m <= |steps| && s in Run(Start(base), steps[..m]).published
    ensures s in Run(Start(base), steps).published
  {
    if m == |steps| {
      assert steps[..m] == steps;
    } else {
      var n := |steps| - 1;
      assert steps[..n][..m] == steps[..m];
      PublishedGrows(base, steps[..n], m, s);
      StepGrowsPublished(Run(Start(base), steps[..n]), steps[n], s);
      RunSnoc(base, steps);
    }
  }

  /** A batch staged now hands out `s`. */
  ghost predicate HandsOut(w: World, recs: seq<Rec>, s: nat) {
    recs != [] && var b := Do(w, Stage(recs)).pending[|w.pending|]; b.Batch? && b.start <= s < b.start + |b.recs|
  }

  /** A seq can be handed out exactly when it lies behind the slots. */
  lemma HandedOutExactlyWhen(w: World, s: nat, rec: Rec)
    ensures s < w.base + |w.slots| ==> forall recs :: !HandsOut(w, recs, s)
    ensures s >= w.base + |w.slots| ==> HandsOut(w, seq(s + 1 - (w.base + |w.slots|), i => rec), s)
  {
  }

  /** No published seq is ever handed out again: in every run whose crashes find it covered, no batch
      staged later gets a seq published before. */
  lemma NeverHandedOutAgain(base: nat, steps: seq<Step>, m: nat, s: nat, recs: seq<Rec>)
    requires GuardedCrashes(base, steps) && m <= |steps| && s in Run(Start(base), steps[..m]).published
    ensures !HandsOut(Run(Start(base), steps), recs, s)
  {
    PublishedGrows(base, steps, m, s);
    NeverFreeExactlyWhen(base, steps);
    RunKeepsSafe(base, steps);
  }

  /** And a crash that does not find it covered may hand it out again: the one that keeps no more than
      what was synced does. */
  lemma UncoveredIsHandedOut(base: nat, steps: seq<Step>, s: nat, rec: Rec, w: World, w1: World)
    requires w == Run(Start(base), steps) && s in w.published && !Covers(w.image, Durable(w), s)
    requires w1 == Do(w, Crash(w.synced))
    ensures HandsOut(w1, seq(Max(s + 1 - (w1.base + |w1.slots|), 0), i => rec), s)
  {
    RunKeepsOrderly(base, steps);
    CoversIsReach(w.image, Durable(w), s);
    LeastIsKept(w, w.synced);
    HandedOutExactlyWhen(w1, s, rec);
  }

  // ---- runs without snapshots are guarded -----------------------------------

  /** The ceiling is durable, and every seq ever published lies strictly below it. */
  ghost predicate Reserved(w: World) {
    && w.synced <= |w.log| && w.image == Image(w.base, 0, [], w.base - 1) && w.from == 0
    && (w.reserved > w.base - 1 ==> w.reserved >= 0 && HeadWatermark(w.reserved) in w.log[..w.synced])
    && forall s :: s in w.published ==> w.base <= s < w.reserved
  }

  lemma ReservedIsGuarded(w: World)
    requires Reserved(w)
    ensures Guarded(w)
  {
    assert Durable(w) == w.log[..w.synced];
    forall s | s in w.published ensures Covers(w.image, Durable(w), s) { CoversWhenLevel(w.image, Durable(w), s); }
  }

  lemma CrashKeepsReserved(w: World, kept: nat)
    requires Reserved(w)
    ensures Reserved(Do(w, Crash(kept)))
    ensures w.synced <= kept <= |w.log| ==> w.reserved <= Do(w, Crash(kept)).reserved
  {
    if w.synced <= kept <= |w.log| {
      var log := w.log[..kept];
      assert log[0..] == log;
      ReplayFindsCeiling(Restore(w.image), log);
      assert log[..w.synced] == w.log[..w.synced];
      assert forall f :: f in log[..w.synced] ==> f in log;
      assert log[..|log|] == log;
    }
  }

  lemma TurnKeepsReserved(w: World, syncOk: bool, w1: World)
    requires Reserved(w) && w1 == Do(w, Turn(syncOk))
    ensures Reserved(w1)
  {
    assert w1.synced == |w1.log| ==> w1.log[..w1.synced] == w1.log;
  }

  lemma StepKeepsReserved(w: World, step: Step)
    requires Reserved(w) && !step.Snapshot?
    ensures Reserved(Do(w, step))
  {
    var w1 := Do(w, step);
    match step
    case Crash(kept) => CrashKeepsReserved(w, kept);
    case Turn(syncOk) => TurnKeepsReserved(w, syncOk, w1);
    case Commit(k, ok) =>
      assert w1.log[..w.synced] == w.log[..w.synced];
    case Sync(upTo) =>
      assert w1.log[..w1.synced][..w.synced] == w.log[..w.synced];
      assert forall f :: f in w.log[..w.synced] ==> f in w1.log[..w1.synced];
    case _ =>
  }

  /** Without snapshots every run keeps the ceiling durable and above all published seqs, so
      every crash finds them covered. */
  lemma {:induction false} RunKeepsReserved(base: nat, steps: seq<Step>)
    requires forall k :: 0 <= k < |steps| ==> !steps[k].Snapshot?
    ensures Reserved(Run(Start(base), steps)) && GuardedCrashes(base, steps)
  {
    if steps != [] {
      var n := |steps| - 1;
      RunKeepsReserved(base, steps[..n]);
      StepKeepsReserved(Run(Start(base), steps[..n]), steps[n]);
      ReservedIsGuarded(Run(Start(base), steps[..n]));
    }
  }

  // ---- a snapshot forgets the reservation -----------------------------------

  /** A drained topic after one record was written alone, its watermark synced if one was due. */
  function Written(w: World, b: Rec): World {
    var s := w.base + |w.slots|;
    var w1 := w.(slots := w.slots + [Live(b)], head := s, log := w.log + [Append(s, b)],
        published := w.published + {s});
    if s < w.reserved then w1 else
    var target := Max(s, w.reserved) + RESERVE_AHEAD;
    w1.(log := w1.log + [HeadWatermark(target)], synced := |w.log| + 2, reserved := target)
  }

  lemma WriteIsWritten(w: World, b: Rec)
    requires w.pending == [] && w.decided == []
    ensures Do(Do(Do(w, Stage([b])), Commit(1, true)), Turn(true)) == Written(w, b)
  {
    var s := w.base + |w.slots|;
    var x, f := W.Batch(s, [b]), Append(s, b);
    var w1 := Do(w, Stage([b]));
    assert w1.pending == [x] && w1.slots == w.slots + [Live(b)] && [x][..1] == [x] && [x][1..] == [];
    assert W.AllFrames([x]) == W.Frames(x) + W.AllFrames([x][1..]) && W.Frames(x) == [f];
    var w2 := Do(w1, Commit(1, true));
    assert w2.decided == [W.Decided(x, true)] && w2.log == w.log + [f] && w2.pending == [];
    assert Range(s, s + 1) == {s};
  }

  /** A drained topic after a snapshot at the end of its log. */
  function Captured(w: World, front: nat): World {
    w.(image := Capture(IndexOf(w), front), from := |w.log|, synced := |w.log|)
  }

  lemma SnapshotIsCaptured(w: World, front: nat)
    requires w.pending == [] && w.decided == [] && w.from <= |w.log| && w.synced <= |w.log| && DeadFront(w.slots, front)
    ensures Do(w, Snapshot(|w.log|, front)) == Captured(w, front)
  {
  }

  /** What is durable behind such a snapshot once a record was written. */
  lemma DurableBehind(w: World, front: nat, b: Rec, w1: World)
    requires w1 == Written(Captured(w, front), b)
    ensures var s := w.base + |w.slots|;
            Durable(w1) == if s < w.reserved then []
                           else [Append(s, b), HeadWatermark(Max(s, w.reserved) + RESERVE_AHEAD)]
  {
    assert w1.log[..w1.synced][w1.from..] == w1.log[|w.log|..w1.synced];
  }

  /** The next record published after a snapshot of a topic that ends live: a crash that keeps what
      was synced hands its seq out again if and only if that seq was already within the
      reservation, so that no new watermark was logged for it. */
  lemma NextPublishIsSafeExactlyWhen(w: World, front: nat, b: Rec, w1: World)
    requires Level(IndexOf(w)) && DeadFront(w.slots, front) && EndsLive(IndexOf(w), front)
    requires w1 == Written(Captured(w, front), b)
    ensures var s := w.base + |w.slots|;
            s in w1.published && (Covers(w1.image, Durable(w1), s) <==> w.reserved <= s)
  {
    var s := w.base + |w.slots|;
    RestoreIsExactlyWhen(IndexOf(w), front);
    DurableBehind(w, front, b, w1);
    CoversWhenLevel(w1.image, Durable(w1), s);
    if s < w.reserved {
      assert Durable(w1) == [];
    } else {
      assert Durable(w1)[1] in Durable(w1);
    }
  }

  /** An append behind the head of a level index is reached, whatever follows it. */
  lemma AppendIsReached(x: Index, frames: seq<Frame>)
    requires Level(x) && frames != [] && frames[0].Append? && frames[0].s == x.head + 1
    ensures Reach(TakeAll(x, frames)) > |x.slots|
  {
    MoreReaches(x, frames[..1], frames[1..]);
    assert frames[..1] + frames[1..] == frames && frames[..1][..0] == [];
    assert TakeAll(x, frames[..1]) == Take(x, frames[0]);
  }

  lemma DurableAfterSync(w: World, front: nat, b: Rec, w1: World)
    requires w1 == Written(Captured(w, front), b)
    ensures var w2 := Do(w1, Sync(|w1.log|));
            && w2.image == w1.image && w2.published == w.published + {w.base + |w.slots|}
            && Durable(w2) != [] && Durable(w2)[0] == Append(w.base + |w.slots|, b)
  {
    assert w1.log[..|w1.log|] == w1.log;
  }

  /** A group sync makes such a publish safe, reserved or not, together with all before it. */
  lemma SyncedPublishIsGuarded(w: World, front: nat, b: Rec, w1: World)
    requires Level(IndexOf(w)) && DeadFront(w.slots, front) && EndsLive(IndexOf(w), front) && Safe(w)
    requires w1 == Written(Captured(w, front), b)
    ensures Guarded(Do(w1, Sync(|w1.log|)))
  {
    var w2 := Do(w1, Sync(|w1.log|));
    var frames, x := Durable(w2), Restore(w1.image);
    RestoreIsExactlyWhen(IndexOf(w), front);
    DurableAfterSync(w, front, b, w1);
    AppendIsReached(x, frames);
    forall s | s in w2.published ensures Covers(w2.image, frames, s) { CoversIsReach(w2.image, frames, s); }
  }

  /** The first record reserves up to 257, a snapshot is taken, the second record is published:
      a run of steps. */
  lemma ForgetfulRun(a: Rec, b: Rec, w: World, w1: World)
    requires w == Written(Start(1), a) && w1 == Written(Captured(w, 0), b)
    ensures Do(Do(Do(Start(1), Stage([a])), Commit(1, true)), Turn(true)) == w
    ensures Do(w, Snapshot(|w.log|, 0)) == Captured(w, 0)
    ensures Do(Do(Do(Captured(w, 0), Stage([b])), Commit(1, true)), Turn(true)) == w1
  {
    WriteIsWritten(Start(1), a);
    SnapshotIsCaptured(w, 0);
    WriteIsWritten(Captured(w, 0), b);
  }

  lemma FirstIsReserved(a: Rec, w: World)
    requires w == Written(Start(1), a)
    ensures w.base == 1 && w.slots == [Live(a)] && w.head == 1 && w.reserved == 257
    ensures Level(IndexOf(w)) && EndsLive(IndexOf(w), 0)
  {
  }

  /** After that run what is durable does not cover seq 2, which was published. */
  lemma SnapshotHandsOutAgain(a: Rec, b: Rec, w: World, w1: World)
    requires w == Written(Start(1), a) && w1 == Written(Captured(w, 0), b)
    ensures 2 in w1.published && !Covers(w1.image, Durable(w1), 2)
  {
    FirstIsReserved(a, w);
    NextPublishIsSafeExactlyWhen(w, 0, b, w1);
  }

  /** Two records are written and the second is deleted by its tag. */
  lemma TailIsDeleted(a: Rec, b: Rec, tag: string, w: World, w1: World)
    requires a.tag == None && b.tag == Some(tag) && w == Written(Written(Start(1), a), b)
    requires w1 == Do(Do(Do(w, StageDelete(None, Some(Eq(tag)))), Commit(1, true)), Turn(true))
    ensures w1.base == 1 && w1.slots == [Live(a), Hole] && w1.head == 2 && 2 in w1.published
    ensures w1.pending == [] && w1.decided == []
  {
    var sel := Selector(None, Some(Eq(tag)), 3);
    var x := W.Del(sel);
    assert w.slots == [Live(a), Live(b)] && w.head == 2;
    var w2 := Do(w, StageDelete(None, Some(Eq(tag))));
    assert w2.pending == [x] && [x][..1] == [x] && [x][1..] == [];
    var w3 := Do(w2, Commit(1, true));
    assert w3.decided == [W.Decided(x, true)] && w3.slots == w.slots;
  }

  /** A snapshot of such a topic does not cover even the deleted record's seq. */
  lemma DeletedTailIsHandedOut(a: Rec, w: World, w1: World)
    requires w.base == 1 && w.slots == [Live(a), Hole] && w.head == 2 && 2 in w.published && w1 == Captured(w, 0)
    ensures 2 in w1.published && !Covers(w1.image, Durable(w1), 2)
  {
    RestoreIsExactlyWhen(IndexOf(w), 0);
    assert LastLive(w.slots, 0, 1) == 1 && LastLive(w.slots, 0, 2) == 1;
    assert Durable(w1) == [];
  }
}
