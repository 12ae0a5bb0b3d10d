/** What the durable log holds of a topic: the record in every published slot, and under which seq;
    and which seqs it has no frame of. */
module LoggedSeqs {
  import opened Common
  import opened TopicLog
  import opened TopicSnapshot
  import opened WritePath
  import opened IndexReplay
  import opened WriteRuns
  import opened CrashRuns
  import opened Durability
  import opened SnapshotReplay

  // ---- records under their seqs ---------------------------------------------

  /** After a crash: if the slots did not end where the head said, the append behind the head was
      let in and landed at their end, away from the seq it was logged under. */
  ghost function StraysAfter(w: World, j: nat, strays: map<nat, nat>): map<nat, nat> {
    var x := Ground(w);
    var end := w.base + |x.slots|;
    var kept := map s | s in strays && s < end :: strays[s];
    if !Level(x) && |x.slots| < |Outcome(w, j).slots| then kept[end := Max(x.head + 1, 0)] else kept
  }

  /** The seqs that recoveries of the run put such records on, with those they were logged under. */
  ghost function Strays(base: nat, steps: seq<Step>): map<nat, nat> {
    if steps == [] then map[] else
    var n := |steps| - 1;
    var strays := Strays(base, steps[..n]);
    if steps[n].Crash? then StraysAfter(Run(Start(base), steps[..n]), steps[n].j, strays) else strays
  }

  function LoggedAs(strays: map<nat, nat>, s: nat): nat { if s in strays then strays[s] else s }

  ghost predicate AllLogged(base: nat, slots: seq<Slot>, strays: map<nat, nat>, log: seq<Frame>) {
    forall i :: 0 <= i < |slots| && slots[i].Live? ==> Append(LoggedAs(strays, base + i), slots[i].rec) in log
  }

  /** Strays went down, to seqs published at the last snapshot or recovery. */
  ghost predicate StraysOk(base: nat, born: nat, strays: map<nat, nat>) {
    forall s :: s in strays ==> base <= s < base + born && s < strays[s]
  }

  /** The slots published at the last snapshot or recovery had been logged. */
  ghost predicate Durable(w: World, strays: map<nat, nat>) {
    AllLogged(w.base, w.born, strays, w.log0) && StraysOk(w.base, |w.born|, strays)
  }

  lemma BelowEdgeIsLogged(w: World, strays: map<nat, nat>, i: nat)
    requires Line(w) && Past(w) && Durable(w, strays) && i < w.edge && w.slots[i].Live?
    ensures Append(LoggedAs(strays, w.base + i), w.slots[i].rec) in w.log
  {
    if i < |w.born| {
      assert w.slots[i] == w.born[i];
    } else {
      assert w.base + i !in strays;
    }
  }

  /** Only a topic whose slots end below its head lets an append land elsewhere. */
  lemma StrayIsShort(w: World, j: nat)
    requires Inv(w) && !Level(Ground(w)) && |Ground(w).slots| < |Outcome(w, j).slots|
    ensures w.base + |Ground(w).slots| <= Ground(w).head
  {
    if Low(Ground(w), |w.born|, w.rolled) { LowOutcome(w, j); }
  }

  lemma HeldIsLogged(w: World, frames: seq<Frame>, strays: map<nat, nat>, i: nat)
    requires Plain(frames) && Under(Ground(w).slots, w.born) && AllLogged(w.base, w.born, strays, w.log0)
    requires i < |Ground(w).slots| && TakeAll(Ground(w), frames).slots[i].Live?
    ensures Append(LoggedAs(strays, w.base + i), TakeAll(Ground(w), frames).slots[i].rec) in w.log0
  {
    KeepsUnlessStruck(Ground(w), frames, i);
  }

  /** What a crash brings back was logged. */
  lemma OutcomeIsLogged(w: World, j: nat, strays: map<nat, nat>, i: nat)
    requires Inv(w) && Durable(w, strays) && i < |Outcome(w, j).slots| && Outcome(w, j).slots[i].Live?
    ensures Append(LoggedAs(StraysAfter(w, j, strays), w.base + i), Outcome(w, j).slots[i].rec) in Survivors(w, j)
  {
    InFlightRises(w, j);
    SinceRises(w, j);
    if i < |Ground(w).slots| {
      HeldIsLogged(w, SinceThen(w, j), strays, i);
    } else {
      LetInUnder(Ground(w), SinceThen(w, j), i);
      LetInIsStray(w, j, strays, i);
    }
  }

  lemma LetInIsStray(w: World, j: nat, strays: map<nat, nat>, i: nat)
    requires Ground(w).base == w.base && |Ground(w).slots| <= i < |Outcome(w, j).slots| && Ground(w).head >= -1
    ensures LoggedAs(StraysAfter(w, j, strays), w.base + i) == SeqOf(Ground(w), i)
  {
  }

  lemma StraysStayOk(w: World, j: nat, strays: map<nat, nat>, born: nat)
    requires Inv(w) && StraysOk(w.base, |w.born|, strays) && BornAfter(w, j, born)
    ensures StraysOk(w.base, born, StraysAfter(w, j, strays))
  {
    if !Level(Ground(w)) && |Ground(w).slots| < |Outcome(w, j).slots| { StrayIsShort(w, j); }
  }

  /** Nothing published then is missing now, or everything that was held is still published, and
      what was let in with it. */
  ghost predicate BornAfter(w: World, j: nat, born: nat) {
    && (|w.born| <= born || |Ground(w).slots| <= born)
    && (|Ground(w).slots| < |Outcome(w, j).slots| ==> |Ground(w).slots| < born)
  }

  lemma CrashBorn(w: World, j: nat, visible: nat)
    requires Inv(w) && w.base + visible == Reconcile(Outcome(w, j)).head + 1
    ensures BornAfter(w, j, Min(visible, |Reconcile(Outcome(w, j)).slots|))
  {
    var x := Ground(w);
    SinceRises(w, j);
    if |x.slots| < |Outcome(w, j).slots| {
      LetInUnder(x, SinceThen(w, j), |x.slots|);
    } else {
      NothingYet(x, SinceThen(w, j));
    }
  }

  lemma RecoveredIsLogged(w: World, j: nat, strays: map<nat, nat>, born: seq<Slot>)
    requires Inv(w) && Durable(w, strays) && born <= Reconcile(Outcome(w, j)).slots
    ensures AllLogged(w.base, born, StraysAfter(w, j, strays), Survivors(w, j))
  {
    var y := Outcome(w, j);
    forall i | 0 <= i < |born| && born[i].Live?
      ensures Append(LoggedAs(StraysAfter(w, j, strays), w.base + i), born[i].rec) in Survivors(w, j)
    {
      assert i < |y.slots| && born[i] == y.slots[i];
      OutcomeIsLogged(w, j, strays, i);
    }
  }

  lemma CrashKeepsDurable(w: World, j: nat, strays: map<nat, nat>)
    requires Inv(w) && Durable(w, strays)
    ensures Durable(Do(w, Crash(j)), StraysAfter(w, j, strays))
  {
    var w1 := Do(w, Crash(j));
    CrashIsAnew(w, j);
    CrashIsCrashed(w, j, w1);
    RecoveredIsLogged(w, j, strays, w1.born);
    CrashBorn(w, j, w1.visible);
    StraysStayOk(w, j, strays, |w1.born|);
  }

  lemma SnapshotKeepsDurable(w: World, k: nat, front: nat, strays: map<nat, nat>)
    requires Inv(w) && Durable(w, strays)
    ensures Durable(Do(w, Snapshot(k, front)), strays)
  {
    if w.decided == [] && w.pending == [] && |w.log0| <= k <= |w.log| && DeadFront(w.slots, front) {
      DrainedTail(w);
      DrainedIsLogged(w, strays, Captured(w, k, front));
    }
  }

  lemma DrainedIsLogged(w: World, strays: map<nat, nat>, w1: World)
    requires Line(w) && Past(w) && Durable(w, strays) && w.edge == |w.slots| && w1.base == w.base
    requires w1.log0 == w.log && w1.born == w.slots[..Min(w.visible, |w.slots|)]
    ensures Durable(w1, strays)
  {
    forall i | 0 <= i < |w1.born| && w1.born[i].Live?
      ensures Append(LoggedAs(strays, w.base + i), w1.born[i].rec) in w1.log0
    {
      BelowEdgeIsLogged(w, strays, i);
    }
  }

  lemma {:induction false} RunKeepsDurable(base: nat, steps: seq<Step>)
    ensures Durable(Run(Start(base), steps), Strays(base, steps))
  {
    if steps != [] {
      var n := |steps| - 1;
      RunKeepsDurable(base, steps[..n]);
      RunKeepsInv(base, steps[..n]);
      StepKeepsDurable(Run(Start(base), steps[..n]), steps[n], Strays(base, steps[..n]));
    }
  }

  lemma StepKeepsDurable(w: World, step: Step, strays: map<nat, nat>)
    requires Inv(w) && Durable(w, strays)
    ensures Durable(Do(w, step), if step.Crash? then StraysAfter(w, step.j, strays) else strays)
  {
    match step
    case Crash(j) => CrashKeepsDurable(w, j, strays);
    case Snapshot(k, front) => SnapshotKeepsDurable(w, k, front, strays);
    case _ =>
      var w1 := Do(w, step);
      assert w1.born == w.born && w1.log0 == w.log0 && w1.base == w.base;
  }

  /** Runs whose crashes find a topic that continues have no strays. */
  lemma {:induction false} SoundHasNoStrays(base: nat, steps: seq<Step>)
    requires SoundCrashes(base, steps)
    ensures Strays(base, steps) == map[]
  {
    if steps != [] { SoundHasNoStrays(base, steps[..|steps| - 1]); }
  }

  lemma SlotIsDurable(w: World, strays: map<nat, nat>, i: nat)
    requires Inv(w) && Durable(w, strays) && i < |w.slots|
    ensures i < w.edge && w.slots[i].Live? ==> Append(LoggedAs(strays, w.base + i), w.slots[i].rec) in w.log
    ensures w.base + i in strays ==> w.base + i < strays[w.base + i]
    ensures Aligned(w) && i < w.visible ==> i < w.edge
  {
    if i < w.edge && w.slots[i].Live? { BelowEdgeIsLogged(w, strays, i); }
  }

  /** In every run: a live record below the outstanding batches is in the durable log, under its own
      seq unless a recovery shifted it to this one, and then under the higher seq behind the head
      of then. No record is shifted in a run whose crashes find a topic that continues. While the
      last snapshot or recovery left the head within the slots, these are all a reader sees. */
  lemma VisibleIsDurable(base: nat, steps: seq<Step>, w: World, strays: map<nat, nat>, i: nat)
    requires w == Run(Start(base), steps) && strays == Strays(base, steps) && i < |w.slots|
    ensures i < w.edge && w.slots[i].Live? ==> Append(LoggedAs(strays, w.base + i), w.slots[i].rec) in w.log
    ensures w.base + i in strays ==> w.base + i < strays[w.base + i]
    ensures SoundCrashes(base, steps) ==> strays == map[]
    ensures Aligned(w) && i < w.visible ==> i < w.edge
  {
    RunKeepsInv(base, steps);
    RunKeepsDurable(base, steps);
    SlotIsDurable(w, strays, i);
    if SoundCrashes(base, steps) { SoundHasNoStrays(base, steps); }
  }

  // ---- seqs the log has no frame of -----------------------------------------

  /** A snapshot that ends where its head says leaves a topic that continues until the next one. */
  lemma {:induction false} LevelImageContinues(base: nat, steps: seq<Step>)
    ensures var w := Run(Start(base), steps); Level(Restore(w.image)) ==> Continues(w)
  {
    if steps == [] {
      StartIsTidy(base);
    } else {
      var n := |steps| - 1;
      LevelImageContinues(base, steps[..n]);
      RunKeepsInv(base, steps[..n]);
      StepLevelContinues(Run(Start(base), steps[..n]), steps[n]);
    }
  }

  lemma SnapshotLevelContinues(w: World, k: nat, front: nat, w1: World)
    requires Line(w) && Past(w) && w.decided == [] && w.pending == [] && |w.log0| <= k <= |w.log|
    requires DeadFront(w.slots, front) && w1 == Captured(w, k, front)
    ensures Level(Restore(w1.image)) <==> Continues(w1)
  {
    SnapshotGround(w, k, front);
    RestoreIsExactlyWhen(IndexOf(w), front);
  }

  lemma StepLevelContinues(w: World, step: Step)
    requires Inv(w) && (Level(Restore(w.image)) ==> Continues(w))
    ensures var w1 := Do(w, step); Level(Restore(w1.image)) ==> Continues(w1)
  {
    match step
    case Crash(j) => if Continues(w) { CrashIsExact(w, j); }
    case Snapshot(k, front) =>
      if w.decided == [] && w.pending == [] && |w.log0| <= k <= |w.log| && DeadFront(w.slots, front) {
        SnapshotLevelContinues(w, k, front, Captured(w, k, front));
      }
    case _ => QuietContinues(w, Do(w, step));
  }

  lemma QuietContinues(w: World, w1: World)
    requires w1.image == w.image && w1.from == w.from && w1.log0 == w.log0 && w1.born == w.born
    ensures Continues(w1) == Continues(w)
  {
    assert Ground(w1) == Ground(w);
  }

  /** What was let in behind the snapshot is logged behind its position, but for the seq on which the
      first append landed if the snapshot did not end where its head says. */
  lemma GroundIsLogged(w: World, x: nat)
    requires Grounded(w) && Plain(w.log0[w.from..])
    requires w.base + |Restore(w.image).slots| <= x < w.base + |Ground(w).slots|
    ensures x in Appended(w.log0[w.from..]) || (x == w.base + |Restore(w.image).slots| && !Level(Restore(w.image)))
  {
    LetInUnder(Restore(w.image), w.log0[w.from..], x - w.base);
  }

  lemma BehindIsWhole(w: World, x: nat)
    requires Line(w) && w.from <= |w.log0| && (x in Appended(w.log0[w.from..]) || x in Appended(w.applied))
    ensures x in Appended(Behind(w.log, w.from))
  {
    var a, b, c := w.log0[w.from..], w.applied, OkFrames(w.decided);
    assert Behind(w.log, w.from) == a + b + c;
    AppendedConcat(a, b);
    AppendedConcat(a + b, c);
  }

  lemma {:induction false} RunIsPlain(base: nat, steps: seq<Step>)
    ensures Plain(Run(Start(base), steps).log0)
  {
    if steps != [] {
      var n := |steps| - 1;
      RunIsPlain(base, steps[..n]);
      RunKeepsInv(base, steps[..n]);
      StepKeepsPlain(Run(Start(base), steps[..n]), steps[n]);
    }
  }

  lemma StepKeepsPlain(w: World, step: Step)
    requires Inv(w) && Plain(w.log0)
    ensures Plain(Do(w, step).log0)
  {
    match step
    case Crash(j) =>
      InFlightRises(w, j);
      SinceRises(w, j);
      PlainConcat(w.log0, SinceThen(w, j));
    case Snapshot(_, _) =>
      InFlightRises(w, 0);
      PlainConcat(w.log0, w.applied);
    case _ =>
  }

  /** In every run: behind the slots published at the last snapshot or recovery and below the
      outstanding batches, exactly the rolled-back seqs were not logged since. And over any number
      of crashes since the last snapshot: every seq behind what it restores and below the
      outstanding batches was logged behind its position, but for those rolled back since; for the
      seq the first append behind the head landed on if the snapshot did not end where its head
      says; and for published seqs that recovery did not bring back. If it did end there, only the
      rolled-back ones are missing. */
  lemma LoggedIsDense(base: nat, steps: seq<Step>, w: World, x: nat)
    requires w == Run(Start(base), steps) && x < w.base + w.edge
    ensures w.base + |w.born| <= x ==> (x in Appended(w.applied) <==> x !in w.rolled)
    ensures var m := Restore(w.image);
            w.base + |m.slots| <= x ==>
              || x in Appended(Behind(w.log, w.from)) || x in w.rolled || (x == w.base + |m.slots| && !Level(m))
              || w.base + |Ground(w).slots| <= x < w.base + |w.born|
    ensures w.base + |Restore(w.image).slots| <= x && Level(Restore(w.image)) ==>
              x in Appended(Behind(w.log, w.from)) || x in w.rolled
  {
    RunKeepsInv(base, steps);
    RunIsPlain(base, steps);
    LevelImageContinues(base, steps);
    if w.base + |Restore(w.image).slots| <= x < w.base + |Ground(w).slots| { GroundIsLogged(w, x); }
    if x in Appended(w.log0[w.from..]) || x in Appended(w.applied) { BehindIsWhole(w, x); }
  }
}
