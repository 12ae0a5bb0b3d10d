/** Crashes, recoveries and snapshots of the write path, over whole runs. */
module CrashRuns {
  import opened Common
  import opened TopicLog
  import opened TopicSnapshot
  import opened WritePath
  import opened IndexReplay
  import opened WriteRuns

  // ---- the frames still in flight -------------------------------------------

  lemma {:induction false} ContiguousSplit(a: seq<Work>, b: seq<Work>, next: nat, end: nat) returns (mid: nat)
    requires Contiguous(a + b, next, end)
    ensures Contiguous(a, next, mid) && Contiguous(b, mid, end)
  {
    if a == [] {
      assert a + b == b;
      mid := next;
    } else {
      ConcatTail(a, b);
      mid := ContiguousSplit(a[1..], b, next + Size(a[0]), end);
    }
  }

  lemma WorkRises(work: Work, next: nat)
    requires work.Batch? ==> work.start == next
    ensures Plain(Frames(work)) && Rises(next, next + Size(work), Frames(work))
  {
    if work.Batch? { BatchRises(work.start, work.recs); } else { assert Frames(work)[..0] == []; }
  }

  lemma {:induction false} PendingRises(works: seq<Work>, next: nat, end: nat)
    requires Contiguous(works, next, end)
    ensures Plain(AllFrames(works)) && Rises(next, end, AllFrames(works))
  {
    if works != [] {
      PendingRises(works[1..], next + Size(works[0]), end);
      WorkRises(works[0], next);
      PlainConcat(Frames(works[0]), AllFrames(works[1..]));
      RisesConcat(next, next + Size(works[0]), end, Frames(works[0]), AllFrames(works[1..]));
    }
  }

  lemma {:induction false} DecidedRises(decided: seq<Decided>, next: nat, end: nat)
    requires Contiguous(WorksOf(decided), next, end)
    ensures Plain(OkFrames(decided)) && Rises(next, end, OkFrames(decided))
  {
    if decided != [] {
      var d := decided[0];
      assert WorksOf(decided)[1..] == WorksOf(decided[1..]);
      DecidedRises(decided[1..], next + Size(d.work), end);
      WorkRises(d.work, next);
      var frames := if d.ok then Frames(d.work) else [];
      assert !d.ok ==> Rises(next, next + Size(d.work), []);
      PlainConcat(frames, OkFrames(decided[1..]));
      RisesConcat(next, next + Size(d.work), end, frames, OkFrames(decided[1..]));
    }
  }

  /** What survives a crash beyond the applied frames rises above them. */
  lemma InFlightRises(w: World, j: nat)
    requires Line(w)
    ensures Plain(InFlight(w, j)) && Rises(w.base + w.edge, w.base + |w.slots|, InFlight(w, j))
    ensures Survivors(w, j) == w.log0 + (w.applied + InFlight(w, j))
  {
    var end := w.base + |w.slots|;
    var mid := ContiguousSplit(WorksOf(w.decided), w.pending, w.base + w.edge, end);
    DecidedRises(w.decided, w.base + w.edge, mid);
    PendingRises(w.pending, mid, end);
    var rest := AllFrames(w.pending);
    var n := if j <= |rest| then j else |rest|;
    RisesPrefix(mid, end, rest, n);
    PlainConcat(OkFrames(w.decided), rest[..n]);
    RisesConcat(w.base + w.edge, mid, end, OkFrames(w.decided), rest[..n]);
    ConcatAssoc(w.log0 + w.applied, OkFrames(w.decided), rest[..n]);
    ConcatAssoc(w.log0, w.applied, InFlight(w, j));
  }

  /** All frames since the last snapshot or recovery that survive. */
  function SinceThen(w: World, j: nat): seq<Frame> { w.applied + InFlight(w, j) }

  lemma SinceRises(w: World, j: nat)
    requires Line(w)
    ensures Plain(SinceThen(w, j)) && Rises(w.base + |w.born|, w.base + |w.slots|, SinceThen(w, j))
  {
    InFlightRises(w, j);
    PlainConcat(w.applied, InFlight(w, j));
    RisesConcat(w.base + |w.born|, w.base + w.edge, w.base + |w.slots|, w.applied, InFlight(w, j));
  }

  /** What they replay to, on what the snapshot and the earlier log recover to. */
  function Outcome(w: World, j: nat): Index { TakeAll(Ground(w), SinceThen(w, j)) }

  lemma CrashIsOutcome(w: World, j: nat)
    requires Line(w) && w.from <= |w.log0|
    ensures TakeAll(Restore(w.image), Behind(Survivors(w, j), w.from)) == Outcome(w, j)
    ensures Recover(w.image, Survivors(w, j), w.from) == Reconcile(Outcome(w, j))
  {
    InFlightRises(w, j);
    var more := SinceThen(w, j);
    assert (w.log0 + more)[w.from..] == w.log0[w.from..] + more;
    TakeConcat(Restore(w.image), w.log0[w.from..], more);
  }

  // ---- appends behind a topic that continues --------------------------------

  ghost predicate RolledBelow(w: World, s: nat) { exists r :: r in w.rolled && r < s }

  /** Frames show the same behind slots of the same number. */
  lemma {:induction false} ShownBehind(base: nat, a: seq<Slot>, b: seq<Slot>, frames: seq<Frame>)
    requires |a| == |b| && Climbs(base, b, frames)
    ensures Climbs(base, a, frames) && |Shown(base, a, frames)| == |Shown(base, b, frames)|
    ensures forall i :: |a| <= i < |Shown(base, a, frames)| ==> Shown(base, a, frames)[i] == Shown(base, b, frames)[i]
  {
    if frames != [] { ShownBehind(base, a, b, frames[..|frames| - 1]); }
  }

  /** The applied frames replay up to the first rolled-back seq. */
  ghost predicate Replayed(w: World, x: Index) {
    var n := |x.slots|;
    && Level(x) && x.base == w.base && |w.born| <= n <= w.visible <= |w.slots| && x.reserved <= x.head
    && (forall i :: |w.born| <= i < n ==> x.slots[i] == w.slots[i])
    && (n < w.visible ==> w.base + n in w.rolled) && (forall r :: r in w.rolled ==> w.base + n <= r)
  }

  lemma AppliedOutcome(w: World)
    requires Inv(w) && Continues(w)
    ensures Replayed(w, TakeAll(Ground(w), w.applied))
  {
    var x := Ground(w);
    var t := At(w.base, x.slots);
    ShownBehind(w.base, x.slots, w.born, w.applied);
    ReplayStopsAtGap(t, w.applied);
    LevelReplay(x, w.applied);
  }

  /** In flight, appends are let in only if nothing published is missing. */
  lemma InFlightOutcome(w: World, j: nat, x: Index)
    requires Line(w) && w.visible <= w.edge && Replayed(w, x)
    ensures var y := TakeAll(x, InFlight(w, j));
            && |x.slots| <= |y.slots| && y.base == x.base && (|x.slots| < w.visible ==> |y.slots| == |x.slots|)
            && Level(y) && y.reserved <= y.head
  {
    InFlightRises(w, j);
    RisesBounds(w.base + w.edge, w.base + |w.slots|, InFlight(w, j));
    LevelReplay(x, InFlight(w, j));
    if |x.slots| < w.visible { NoneLetIn(x, InFlight(w, j)); }
  }

  /** No delete on its way strikes `s`. */
  ghost predicate Spared(w: World, j: nat, s: nat)
    requires w.base <= s < w.base + |w.slots|
  {
    !StruckBy(InFlight(w, j), s, w.slots[s - w.base])
  }

  /** The slots after a crash. */
  function After(w: World, j: nat): seq<Slot> { Recover(w.image, Survivors(w, j), w.from).slots }

  /** After a crash slot `s` holds the acknowledged record. */
  predicate IsBack(w: World, j: nat, s: nat)
    requires s in w.acked
  {
    w.base <= s < w.base + |After(w, j)| && After(w, j)[s - w.base] == Live(w.acked[s])
  }

  /** While the head is within the slots, acknowledged records are published. */
  lemma AckedIsPublished(w: World, s: nat)
    requires Inv(w) && Aligned(w) && s in w.acked
    ensures w.base <= s < w.base + w.visible <= w.base + w.edge
  {
    AppliedBelow(w);
  }

  lemma ContinuesIsAligned(w: World)
    requires Inv(w) && Continues(w)
    ensures Aligned(w) && Shape(w)
  {
  }

  /** The applied frames alone bring a seq back exactly when none below was rolled back. */
  lemma ReplayedReaches(w: World, x: Index, s: nat)
    requires Replayed(w, x) && w.base <= s < w.base + w.visible && s !in w.rolled
    ensures s >= w.base + |x.slots| <==> RolledBelow(w, s)
    ensures s >= w.base + |x.slots| ==> |x.slots| < w.visible
  {
  }

  lemma OutcomeSplits(w: World, j: nat)
    ensures Outcome(w, j) == TakeAll(TakeAll(Ground(w), w.applied), InFlight(w, j))
  {
    TakeConcat(Ground(w), w.applied, InFlight(w, j));
  }

  /** A record acknowledged since, behind a topic that continues. */
  lemma ContinuedReaches(w: World, j: nat, s: nat)
    requires Inv(w) && Continues(w) && s in w.acked && s >= w.base + |w.born|
    ensures var y := Outcome(w, j);
            && y.base == w.base && y.reserved <= y.head && (s >= w.base + |y.slots| <==> RolledBelow(w, s))
    ensures s >= w.base + |TakeAll(Ground(w), w.applied).slots| <==> RolledBelow(w, s)
    ensures Replayed(w, TakeAll(Ground(w), w.applied))
  {
    var x := TakeAll(Ground(w), w.applied);
    ContinuesIsAligned(w);
    AppliedOutcome(w);
    AckedIsPublished(w, s);
    ReplayedReaches(w, x, s);
    InFlightOutcome(w, j, x);
    OutcomeSplits(w, j);
  }

  lemma ContinuedOutcome(w: World, j: nat, s: nat)
    requires Inv(w) && Continues(w) && s in w.acked && s >= w.base + |w.born| && !RolledBelow(w, s)
    requires w.base <= s < w.base + |w.slots| && w.slots[s - w.base] == Live(w.acked[s])
    ensures var y := Outcome(w, j);
            s < w.base + |y.slots| && (y.slots[s - w.base] == Live(w.acked[s]) <==> Spared(w, j, s))
  {
    ContinuedReaches(w, j, s);
    SparedStays(w, j, TakeAll(Ground(w), w.applied), s);
    OutcomeSplits(w, j);
  }

  lemma SparedStays(w: World, j: nat, x: Index, s: nat)
    requires Line(w) && Replayed(w, x) && w.base + |w.born| <= s < w.base + |x.slots| && w.slots[s - w.base].Live?
    ensures var y := TakeAll(x, InFlight(w, j)); y.slots[s - w.base] == w.slots[s - w.base] <==> Spared(w, j, s)
  {
    InFlightRises(w, j);
    KeepsUnlessStruck(x, InFlight(w, j), s - w.base);
  }

  // ---- appends behind a topic that does not ---------------------------------

  /** What was appended since lies behind the slots of then, and was not rolled back. */
  lemma AppliedIsNotRolled(w: World, f: Frame)
    requires Line(w) && RolledOk(w.base + |w.born|, w.base + w.edge, w.applied, w.rolled)
    requires f in w.applied && f.Append?
    ensures f.s >= w.base + |w.born| && f.s !in w.rolled
  {
    RisesBounds(w.base + |w.born|, w.base + w.edge, w.applied);
    AppendedIsIn(w.applied, f.s);
  }

  lemma InFlightIsNotRolled(w: World, j: nat, f: Frame)
    requires Line(w) && RolledOk(w.base + |w.born|, w.base + w.edge, w.applied, w.rolled)
    requires f in InFlight(w, j) && f.Append?
    ensures f.s >= w.base + |w.born| && f.s !in w.rolled
  {
    InFlightRises(w, j);
    RisesBounds(w.base + w.edge, w.base + |w.slots|, InFlight(w, j));
  }

  lemma SinceIsNotRolled(w: World, j: nat, f: Frame)
    requires Line(w) && RolledOk(w.base + |w.born|, w.base + w.edge, w.applied, w.rolled)
    requires f in SinceThen(w, j) && f.Append?
    ensures f.s >= w.base + |w.born| && f.s !in w.rolled
  {
    if f in w.applied { AppliedIsNotRolled(w, f); } else { InFlightIsNotRolled(w, j, f); }
  }

  lemma LowOutcome(w: World, j: nat)
    requires Line(w) && RolledOk(w.base + |w.born|, w.base + w.edge, w.applied, w.rolled)
    requires Ground(w).base == w.base && Low(Ground(w), |w.born|, w.rolled)
    ensures var x, y := Ground(w), Outcome(w, j);
            |y.slots| == |x.slots| && y.head == x.head && y.reserved == x.reserved && y.base == x.base
  {
    SinceRises(w, j);
    forall f | f in SinceThen(w, j) && f.Append? ensures f.s != Ground(w).head + 1 { SinceIsNotRolled(w, j, f); }
    NoneLetIn(Ground(w), SinceThen(w, j));
  }

  lemma LowLandsNone(w: World, j: nat, rec: Rec)
    requires Line(w) && RolledOk(w.base + |w.born|, w.base + w.edge, w.applied, w.rolled)
    requires Ground(w).base == w.base && Low(Ground(w), |w.born|, w.rolled)
    ensures !Lands(Ground(w), SinceThen(w, j), rec)
  {
    forall f | f in SinceThen(w, j) && f.Append? ensures f.s != Ground(w).head + 1 { SinceIsNotRolled(w, j, f); }
    NoneLands(Ground(w), SinceThen(w, j), rec);
  }

  /** A record acknowledged since has no slot after recovery, and nothing lands on its seq. */
  lemma LowIsNotBack(w: World, j: nat, s: nat)
    requires Inv(w) && Low(Ground(w), |w.born|, w.rolled) && s in w.acked && s >= w.base + |w.born|
    ensures s >= w.base + |Reconcile(Outcome(w, j)).slots| && !Twin(w, j, s)
  {
    LowOutcome(w, j);
    LowLandsNone(w, j, w.acked[s]);
  }

  /** The slots end below the head; the append behind the head is let in, lands on `s` and is not
      struck there, and its record is the same as the one acknowledged as `s`. */
  ghost predicate Twin(w: World, j: nat, s: nat)
    requires s in w.acked
  {
    var x := Ground(w);
    s == w.base + |x.slots| && s <= x.head && Lands(x, SinceThen(w, j), w.acked[s])
  }

  /** Behind the slots of a short index recovery finds the shifted record, and padding. */
  lemma ShiftedSlot(x: Index, frames: seq<Frame>, y: Index, s: nat, rec: Rec)
    requires OneShifted(x, frames, y) && x.base + |x.slots| <= x.head && s >= x.base + |x.slots|
    ensures var slots := Reconcile(y).slots;
            s < x.base + |slots| && slots[s - x.base] == Live(rec) <==>
              s == x.base + |x.slots| && Lands(x, frames, rec)
  {
    if Lands(x, frames, rec) { LandsIsLetIn(x, frames, rec); }
  }

  /** A record acknowledged since has no slot of its own after recovery. */
  lemma ShortIsNotBack(w: World, j: nat, s: nat)
    requires Line(w) && Ground(w).base == w.base && Short(Ground(w), |w.born|)
    requires s in w.acked && s >= w.base + |w.born|
    ensures var slots := Reconcile(Outcome(w, j)).slots;
            s < w.base + |slots| && slots[s - w.base] == Live(w.acked[s]) <==> Twin(w, j, s)
  {
    SinceRises(w, j);
    ShortReplay(Ground(w), w.base + |w.born|, w.base + |w.slots|, SinceThen(w, j));
    ShiftedSlot(Ground(w), SinceThen(w, j), Outcome(w, j), s, w.acked[s]);
  }

  // ---- records published by then --------------------------------------------

  /** The last snapshot, with the log replayed on it, or the last recovery holds the record. */
  predicate Held(w: World, s: nat) {
    var x := Ground(w);
    x.base <= s < x.base + |x.slots| && x.slots[s - x.base].Live?
  }

  /** A record published by then is back exactly when it is held and no delete on its way strikes
      it. */
  lemma HeldOutcome(w: World, j: nat, s: nat)
    requires Inv(w) && s in w.acked && s < w.base + |w.born| && w.slots[s - w.base] == Live(w.acked[s])
    ensures var slots := Reconcile(Outcome(w, j)).slots;
            && s < w.base + |slots| && !Twin(w, j, s)
            && (slots[s - w.base] == Live(w.acked[s]) <==> Held(w, s) && Spared(w, j, s))
  {
    var x, i := Ground(w), s - w.base;
    assert !StruckBy(w.applied, s, w.born[i]) && w.born[i] == w.slots[i];
    SinceRises(w, j);
    KeepsUnlessStruck(x, SinceThen(w, j), i);
    StruckConcat(w.applied, InFlight(w, j), s, x.slots[i]);
    assert x.slots[i].Live? ==> x.slots[i] == w.born[i];
  }

  // ---- one crash ------------------------------------------------------------

  /** Any crash, in any state of any run: an acknowledged record that no delete struck is back
      under its seq exactly when no delete on its way strikes it and either the last snapshot or
      recovery holds it, or it came later, the topic it recovers to continues, and no lower seq
      was rolled back since; or when a record of the same content lands on its seq. */
  lemma CrashOutcome(w: World, j: nat, s: nat)
    requires Inv(w) && s in w.acked && s !in w.doomed
    ensures w.base <= s < w.base + |w.slots|
    ensures IsBack(w, j, s) <==>
            || (Spared(w, j, s) && if s < w.base + |w.born| then Held(w, s) else Continues(w) && !RolledBelow(w, s))
            || Twin(w, j, s)
  {
    CrashIsOutcome(w, j);
    if s < w.base + |w.born| {
      HeldOutcome(w, j, s);
    } else if Continues(w) {
      ContinuedReaches(w, j, s);
      if !RolledBelow(w, s) { ContinuedOutcome(w, j, s); }
    } else if Low(Ground(w), |w.born|, w.rolled) {
      LowIsNotBack(w, j, s);
    } else {
      ShortIsNotBack(w, j, s);
    }
  }

  lemma RecoveredReaches(w: World, j: nat)
    ensures |Ground(w).slots| <= |Outcome(w, j).slots| <= |Reconcile(Outcome(w, j)).slots|
  {
  }

  /** Behind a topic that continues, the seq of an acknowledged record is taken, deleted or not,
      exactly when no lower seq was rolled back. */
  lemma CrashTakes(w: World, j: nat, s: nat)
    requires Inv(w) && Continues(w) && s in w.acked
    ensures s >= w.base + |After(w, j)| <==> RolledBelow(w, s)
  {
    CrashIsOutcome(w, j);
    RecoveredReaches(w, j);
    if s >= w.base + |w.born| { ContinuedReaches(w, j, s); }
  }

  // ---- what a crash leaves --------------------------------------------------

  /** No live slot lies above both the head and the reservation. */
  ghost predicate LiveBelow(x: Index) {
    forall i :: 0 <= i < |x.slots| && x.slots[i].Live? ==> x.base + i <= Max(x.head, x.reserved)
  }

  lemma {:induction false} TakeLiveBelow(x: Index, frames: seq<Frame>)
    requires LiveBelow(x) && x.base <= x.head + 1
    ensures var y := TakeAll(x, frames); LiveBelow(y) && y.base == x.base <= y.head + 1
  {
    if frames != [] { TakeLiveBelow(x, frames[..|frames| - 1]); }
  }

  lemma OutcomeIsSound(w: World, j: nat)
    requires Inv(w)
    ensures var y := Outcome(w, j); LiveBelow(y) && y.base == w.base <= y.head + 1
  {
    var x := Ground(w);
    assert LiveBelow(x);
    TakeLiveBelow(x, SinceThen(w, j));
  }

  /** What recovery makes of such an index. */
  lemma ReconcileIs(y: Index)
    requires LiveBelow(y) && y.base <= y.head + 1
    ensures var x := Reconcile(y);
            && x.base == y.base && x.head == Max(y.head, y.reserved) && |y.slots| <= |x.slots|
            && (forall i :: 0 <= i < |y.slots| ==> x.slots[i] == y.slots[i])
            && (forall i :: |y.slots| <= i < |x.slots| ==> x.slots[i].Hole?)
            && (forall i :: 0 <= i < |x.slots| && x.slots[i].Live? ==> x.base + i <= x.head)
            && (y.reserved > y.head ==> y.base + |x.slots| >= y.reserved + 1)
            && (|x.slots| > |y.slots| ==> y.base + |x.slots| == y.reserved + 1)
            && (y.reserved <= y.head ==> |x.slots| == |y.slots|)
  {
  }

  /** A recovered topic has no history yet. */
  ghost predicate Anew(w: World) {
    && w.decided == [] && w.pending == [] && w.applied == [] && w.log == w.log0 && w.edge == |w.slots|
    && w.head0 == w.visible && w.born == w.slots[..Min(w.visible, |w.slots|)]
    && w.rolled == Range(w.base + w.visible, w.base + |w.slots|)
    && (forall i :: w.visible <= i < |w.slots| ==> w.slots[i].Hole?)
  }

  /** Acknowledged records are published, and there unless a delete struck them. */
  ghost predicate AcksStand(base: nat, slots: seq<Slot>, visible: nat, acked: map<nat, Rec>, doomed: set<nat>) {
    forall s :: s in acked ==>
      base <= s < base + Min(visible, |slots|) && (s !in doomed ==> slots[s - base] == Live(acked[s]))
  }

  lemma AnewIsLine(w: World)
    requires Anew(w)
    ensures Line(w) && (Aligned(w) ==> Shape(w)) && Works(w) == []
  {
    assert w.log == w.log0 + [] + [];
    assert Works(w) == [];
  }

  lemma AnewIsPast(w: World)
    requires Anew(w) && AcksStand(w.base, w.slots, w.visible, w.acked, w.doomed) && Works(w) == []
    ensures Past(w)
  {
    assert Appended(w.applied) == {};
  }

  lemma AnewIsInv(w: World)
    requires Anew(w) && Grounded(w) && AcksStand(w.base, w.slots, w.visible, w.acked, w.doomed)
    ensures Inv(w)
  {
    AnewIsLine(w);
    AnewIsPast(w);
  }

  /** Where the ground of a fresh history stands. */
  lemma AnewIsGrounded(w: World, y: Index)
    requires Anew(w) && Ground(w) == y && w.from <= |w.log0| && LiveBelow(y) && y.base == w.base <= y.head + 1
    requires w.slots == Reconcile(y).slots && w.base + w.visible == Reconcile(y).head + 1
    ensures Grounded(w)
  {
    ReconcileIs(y);
    assert Under(y.slots, w.born);
  }

  lemma CrashIsAnew(w: World, j: nat)
    requires Inv(w)
    ensures var w1, y := Do(w, Crash(j)), Outcome(w, j);
            && Anew(w1) && Ground(w1) == y && w1.from <= |w1.log0| && w1.base == w.base
            && w1.slots == Reconcile(y).slots && w1.base + w1.visible == Reconcile(y).head + 1
            && LiveBelow(y) && y.base == w.base <= y.head + 1
  {
    CrashIsOutcome(w, j);
    OutcomeIsSound(w, j);
    ReconcileIs(Outcome(w, j));
    InFlightRises(w, j);
  }

  lemma CrashKeepsInv(w: World, j: nat)
    requires Inv(w)
    ensures Inv(Do(w, Crash(j)))
  {
    var w1 := Do(w, Crash(j));
    CrashIsAnew(w, j);
    AnewIsGrounded(w1, Outcome(w, j));
    CrashAcksStand(w, j);
    AnewIsInv(w1);
  }

  lemma StillAckedStands(base: nat, acked: map<nat, Rec>, doomed: set<nat>, x: Index, visible: nat)
    requires visible == Max(x.head + 1 - base, 0)
    ensures AcksStand(base, x.slots, visible, StillAcked(base, acked, doomed, x), doomed)
  {
  }

  lemma CrashAcksStand(w: World, j: nat)
    ensures var w1 := Do(w, Crash(j)); AcksStand(w1.base, w1.slots, w1.visible, w1.acked, w1.doomed)
  {
    var w1 := Do(w, Crash(j));
    StillAckedStands(w.base, w.acked, w1.doomed, Recover(w.image, Survivors(w, j), w.from), w1.visible);
  }

  // ---- one snapshot ---------------------------------------------------------

  /** The log since its position strikes what it struck, and lets nothing in. */
  lemma OverlapLetsNoneIn(w: World, k: nat, front: nat)
    requires Line(w) && w.decided == [] && |w.log0| <= k <= |w.log| && DeadFront(w.slots, front)
    ensures var y := Restore(Capture(IndexOf(w), front)); var x := TakeAll(y, w.log[k..]);
            && |x.slots| == |y.slots| && x.head == y.head == x.reserved == y.reserved && x.base == y.base
            && forall i :: 0 <= i < |y.slots| && x.slots[i].Live? ==> x.slots[i] == y.slots[i]
  {
    var y, m := Restore(Capture(IndexOf(w), front)), k - |w.log0|;
    RestoreIsExactlyWhen(IndexOf(w), front);
    assert w.log == w.log0 + w.applied && w.log[k..] == w.applied[m..];
    forall f | f in w.applied[m..] && f.Append? ensures f.s != y.head + 1 {
      assert f in w.applied;
      AppendedIsIn(w.applied, f.s);
    }
    NoneLetIn(y, w.applied[m..]);
    forall i | 0 <= i < |y.slots| && TakeAll(y, w.applied[m..]).slots[i].Live?
      ensures TakeAll(y, w.applied[m..]).slots[i] == y.slots[i]
    {
      KeepsUnlessStruck(y, w.applied[m..], i);
    }
  }

  /** Behind what is visible only rolled-back seqs lie in a drained topic. */
  lemma DrainedTail(w: World)
    requires Line(w) && Past(w) && w.decided == [] && w.pending == []
    ensures w.edge == |w.slots|
    ensures forall s: nat :: w.base + w.visible <= s ==> (s in w.rolled <==> s < w.base + |w.slots|)
    ensures forall s :: s in w.acked ==> s < w.base + Min(w.visible, |w.slots|)
    ensures forall i :: w.visible <= i < |w.slots| ==> w.slots[i].Hole?
  {
    assert Works(w) == [];
    forall i | w.visible <= i < |w.slots| ensures w.slots[i].Hole? { assert w.base + i in w.rolled; }
  }

  /** An index with `n` slots and its head and reservation below `visible`, on published slots. */
  lemma GroundIs(w: World, n: nat)
    requires Anew(w) && w.from <= |w.log0| && n <= |w.slots|
    requires var x := Ground(w);
             && x.base == w.base && |x.slots| == n && x.head == x.reserved == w.base + w.visible - 1
             && Under(x.slots, w.born)
    ensures Grounded(w) && (Continues(w) <==> n == w.visible)
  {
    var x := Ground(w);
    if n > w.visible {
      assert Low(x, |w.born|, w.rolled);
    } else if n < w.visible {
      assert Short(x, |w.born|);
    }
  }

  /** The ground a snapshot leaves: it continues exactly when the topic ended live. */
  lemma SnapshotGround(w: World, k: nat, front: nat)
    requires Line(w) && Past(w) && w.decided == [] && w.pending == [] && |w.log0| <= k <= |w.log|
    requires DeadFront(w.slots, front)
    ensures var w1 := Captured(w, k, front); Grounded(w1) && (Continues(w1) <==> EndsLive(IndexOf(w), front))
  {
    var w1, n := Captured(w, k, front), Cut(IndexOf(w), front);
    OverlapLetsNoneIn(w, k, front);
    RestoreIsExactlyWhen(IndexOf(w), front);
    SnapshotIsAnew(w, k, front);
    SnapshotIsUnder(w, front, Ground(w1).slots);
    GroundIs(w1, n);
  }

  /** The log from any position since the last snapshot or recovery is reflected in what is
      published, while the head is within the slots. */
  lemma OverlapIsReflected(w: World, k: nat)
    requires Shape(w) && w.decided == [] && |w.log0| <= k <= |w.log|
    ensures Plain(w.log[k..])
    ensures forall i :: 0 <= i < |w.log[k..]| ==> Reflected(At(w.base, w.slots[..w.visible]), w.log[k..][i])
  {
    var t, m := At(w.base, w.slots[..w.visible]), k - |w.log0|;
    assert w.log == w.log0 + w.applied;
    assert w.log[k..] == w.applied[m..];
    ClimbsIsPlain(w.base, w.born, w.applied);
    assert t.slots == Shown(w.base, w.born, w.applied);
    forall i | 0 <= i < |w.log[k..]| ensures Reflected(t, w.log[k..][i]) {
      ShownReflects(w.base, w.born, w.applied, m + i);
    }
  }

  /** The topic recovers to exactly the slots published at the last snapshot or recovery. */
  ghost predicate Exact(w: World) { Continues(w) && Ground(w).slots == w.born }

  /** Frames reflected in a level index change nothing on it. */
  lemma ReflectedOnIndex(x: Index, frames: seq<Frame>)
    requires Level(x) && Plain(frames) && forall i :: 0 <= i < |frames| ==> Reflected(At(x.base, x.slots), frames[i])
    ensures TakeAll(x, frames).slots == x.slots
  {
    LevelReplay(x, frames);
    ReflectedReplayIsNoop(At(x.base, x.slots), frames);
  }

  /** So does a snapshot of a topic that ends live and whose head is within its slots. */
  lemma SnapshotIsExact(w: World, k: nat, front: nat)
    requires Inv(w) && Aligned(w) && w.decided == [] && w.pending == [] && |w.log0| <= k <= |w.log|
    requires DeadFront(w.slots, front) && EndsLive(IndexOf(w), front)
    ensures Exact(Captured(w, k, front))
  {
    SnapshotGround(w, k, front);
    SnapshotHoldsAll(w, k, front);
  }

  lemma SnapshotHoldsAll(w: World, k: nat, front: nat)
    requires Shape(w) && w.decided == [] && |w.log0| <= k <= |w.log| && w.visible <= |w.slots|
    requires DeadFront(w.slots, front) && EndsLive(IndexOf(w), front)
    ensures TakeAll(Restore(Capture(IndexOf(w), front)), w.log[k..]).slots == w.slots[..w.visible]
  {
    RestoreIsExactlyWhen(IndexOf(w), front);
    OverlapIsReflected(w, k);
    ReflectedOnIndex(Restore(Capture(IndexOf(w), front)), w.log[k..]);
  }

  lemma SnapshotIsUnder(w: World, front: nat, held: seq<Slot>)
    requires DeadFront(w.slots, front)
    requires var y := Restore(Capture(IndexOf(w), front));
             |held| == |y.slots| && forall i :: 0 <= i < |held| && held[i].Live? ==> held[i] == y.slots[i]
    ensures Under(held, w.slots[..Min(w.visible, |w.slots|)])
  {
    RestoreIsExactlyWhen(IndexOf(w), front);
  }

  lemma SnapshotKeepsInv(w: World, k: nat, front: nat)
    requires Inv(w)
    ensures Inv(Do(w, Snapshot(k, front)))
  {
    if w.decided == [] && w.pending == [] && |w.log0| <= k <= |w.log| && DeadFront(w.slots, front) {
      SnapshotGround(w, k, front);
      SnapshotIsAnew(w, k, front);
      AnewIsInv(Captured(w, k, front));
    }
  }

  lemma SnapshotIsAnew(w: World, k: nat, front: nat)
    requires Line(w) && Past(w) && w.decided == [] && w.pending == []
    ensures var w1 := Captured(w, k, front);
            Anew(w1) && AcksStand(w1.base, w1.slots, w1.visible, w1.acked, w1.doomed)
  {
    var w1 := Captured(w, k, front);
    DrainedTail(w);
    assert w1.rolled == Range(w.base + w.visible, w.base + |w.slots|);
  }

  lemma StepKeepsInv(w: World, step: Step)
    requires Inv(w)
    ensures Inv(Do(w, step))
  {
    match step
    case Stage(recs) => StageKeepsInv(w, recs);
    case StageDelete(before, filter) => StageDeleteKeepsInv(w, before, filter);
    case Commit(k, ok) => CommitKeepsInv(w, k, ok);
    case Turn => TurnKeepsInv(w);
    case Snapshot(k, front) => SnapshotKeepsInv(w, k, front);
    case Crash(j) => CrashKeepsInv(w, j);
  }

  lemma StartIsInv(base: nat)
    ensures Inv(Start(base))
  {
    var w := Start(base);
    assert w.log0[w.from..] == [] && Restore(w.image) == Index(base, [], base - 1, base - 1);
    assert Ground(w) == Restore(w.image);
    assert w.rolled == Range(base, base);
    AnewIsInv(w);
  }

  /** Every run, whatever its snapshots, crashes and failed commits, keeps the invariant. */
  lemma {:induction false} RunKeepsInv(base: nat, steps: seq<Step>)
    ensures Inv(Run(Start(base), steps))
  {
    if steps == [] {
      StartIsInv(base);
    } else {
      RunKeepsInv(base, steps[..|steps| - 1]);
      StepKeepsInv(Run(Start(base), steps[..|steps| - 1]), steps[|steps| - 1]);
    }
  }
}
