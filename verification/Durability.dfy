/** What the write path promises a writer and a reader, over every run. */
module Durability {
  import opened Common
  import opened TopicLog
  import opened TopicSnapshot
  import opened WritePath
  import opened IndexReplay
  import opened WriteRuns
  import opened CrashRuns

  /** A state some run from an empty topic leads to. */
  ghost predicate Reachable(w: World) { exists base, steps :: w == Run(Start(base), steps) }

  lemma ReachableKeepsInv(w: World)
    requires Reachable(w)
    ensures Inv(w)
  {
    var base, steps :| w == Run(Start(base), steps);
    RunKeepsInv(base, steps);
  }

  lemma ReachableStep(w: World, step: Step)
    requires Reachable(w)
    ensures Reachable(Do(w, step))
  {
    var base, steps :| w == Run(Start(base), steps);
    assert (steps + [step])[..|steps|] == steps;
    assert Do(w, step) == Run(Start(base), steps + [step]);
  }

  // ---- the exact fate of an acknowledged record -----------------------------

  /** The record was published by the last snapshot or recovery, and that holds it; or it came
      later, behind a topic that continues, and no lower seq was rolled back since. */
  ghost predicate Survives(w: World, s: nat) {
    if s < w.base + |w.born| then Held(w, s) else Continues(w) && !RolledBelow(w, s)
  }

  /** In every state of every run, for every crash: an acknowledged record that no delete struck
      comes back with its seq and payload if and only if no delete on its way strikes it and it
      survives, or a record of equal content lands on its seq; if not, it is lost. */
  lemma AckedComesBackExactlyWhen(w: World, j: nat, s: nat, w1: World)
    requires Reachable(w) && s in w.acked && s !in w.doomed && w1 == Do(w, Crash(j))
    ensures w.base <= s < w.base + |w.slots| && After(w, j) == w1.slots
    ensures IsBack(w, j, s) <==> (Spared(w, j, s) && Survives(w, s)) || Twin(w, j, s)
    ensures IsBack(w, j, s) ==> s in w1.acked && w1.acked[s] == w.acked[s]
    ensures !IsBack(w, j, s) && s !in w1.doomed ==> s in w1.lost
  {
    ReachableKeepsInv(w);
    CrashOutcome(w, j, s);
    CrashIsCrashed(w, j, w1);
    BackIsKept(w, j, s, w1);
  }

  /** What a crash that recovers to index `x` makes of the books. */
  ghost predicate Booked(w: World, x: Index, w1: World) {
    && w1.slots == x.slots && w1.visible == Max(x.head + 1 - w.base, 0)
    && w1.acked == StillAcked(w.base, w.acked, w1.doomed, x)
    && w1.lost == w.lost + (w.acked.Keys - w1.acked.Keys)
  }

  ghost predicate Crashed(w: World, j: nat, w1: World) {
    && Booked(w, Recover(w.image, Survivors(w, j), w.from), w1)
    && w1.doomed == w.doomed + Struck(w.base, w.slots, InFlight(w, j))
    && w1.base == w.base && w1.log == Survivors(w, j) && w1.pending == []
  }

  lemma CrashIsCrashed(w: World, j: nat, w1: World)
    requires w1 == Do(w, Crash(j))
    ensures Crashed(w, j, w1)
  {
  }

  lemma StillAckedIs(base: nat, acked: map<nat, Rec>, doomed: set<nat>, x: Index, s: nat)
    requires s in acked && forall i :: 0 <= i < |x.slots| && x.slots[i].Live? ==> base + i <= x.head
    ensures var back := base <= s < base + |x.slots| && x.slots[s - base] == Live(acked[s]);
            var kept := StillAcked(base, acked, doomed, x);
            && (back ==> s in kept && kept[s] == acked[s]) && (!back && s !in doomed ==> s !in kept)
            && (s in doomed && base <= s <= x.head && s < base + |x.slots| ==> s in kept && kept[s] == acked[s])
  {
    assert base <= s ==> base + (s - base) == s;
  }

  lemma RecoveredLiveBelow(w: World, j: nat)
    requires Inv(w)
    ensures var x := Recover(w.image, Survivors(w, j), w.from);
            forall i :: 0 <= i < |x.slots| && x.slots[i].Live? ==> w.base + i <= x.head
  {
    CrashIsOutcome(w, j);
    OutcomeIsSound(w, j);
    ReconcileIs(Outcome(w, j));
  }

  /** The books after a crash: what is back is still acknowledged, what is not is lost. */
  lemma BackIsKept(w: World, j: nat, s: nat, w1: World)
    requires Inv(w) && s in w.acked && Crashed(w, j, w1)
    ensures IsBack(w, j, s) ==> s in w1.acked && w1.acked[s] == w.acked[s]
    ensures !IsBack(w, j, s) && s !in w1.doomed ==> s !in w1.acked && s in w1.lost
    ensures s in w1.doomed && w.base <= s < w.base + Min(w1.visible, |w1.slots|) ==>
              s in w1.acked && w1.acked[s] == w.acked[s]
  {
    RecoveredLiveBelow(w, j);
    var x := Recover(w.image, Survivors(w, j), w.from);
    assert Booked(w, x, w1) && After(w, j) == x.slots;
    BookedIs(w, x, w1, s);
  }

  lemma BookedIs(w: World, x: Index, w1: World, s: nat)
    requires s in w.acked && Booked(w, x, w1)
    requires forall i :: 0 <= i < |x.slots| && x.slots[i].Live? ==> w.base + i <= x.head
    ensures var back := w.base <= s < w.base + |x.slots| && x.slots[s - w.base] == Live(w.acked[s]);
            && (back ==> s in w1.acked && w1.acked[s] == w.acked[s])
            && (!back && s !in w1.doomed ==> s !in w1.acked && s in w1.lost)
            && (s in w1.doomed && w.base <= s < w.base + Min(w1.visible, |w1.slots|) ==>
                  s in w1.acked && w1.acked[s] == w.acked[s])
  {
    StillAckedIs(w.base, w.acked, w1.doomed, x, s);
  }

  lemma StruckIsIn(base: nat, slots: seq<Slot>, frames: seq<Frame>, s: nat)
    requires base <= s < base + |slots|
    ensures StruckBy(frames, s, slots[s - base]) <==> s in Struck(base, slots, frames)
  {
  }

  lemma SparedUnlessDoomed(w: World, j: nat, s: nat, w1: World)
    requires w.base <= s < w.base + |w.slots| && Crashed(w, j, w1) && s !in w1.doomed
    ensures Spared(w, j, s)
  {
    StruckIsIn(w.base, w.slots, InFlight(w, j), s);
  }

  /** The seqs of acknowledged records, deleted or not, behind a topic that continues. */
  lemma AckedSeqIsTakenExactlyWhen(w: World, j: nat, s: nat)
    requires Reachable(w) && Continues(w) && s in w.acked
    ensures w.base + |After(w, j)| <= s <==> RolledBelow(w, s)
  {
    ReachableKeepsInv(w);
    CrashTakes(w, j, s);
  }

  /** A failed group commit leaves its seq a hole that is in no log. */
  lemma FailedCommitLeavesHole(base: nat, a: Rec)
    ensures var w := Do(Do(Do(Start(base), Stage([a])), Commit(1, false)), Turn);
            && w.slots == [Hole] && w.base == base && w.visible == 0 && w.log == [] && w.pending == []
                 && w.decided == []
            && w.acked == map[] && base in w.rolled && w.image == Start(base).image && w.from == 0
  {
    var w1 := Do(Start(base), Stage([a]));
    assert w1.pending == [Batch(base, [a])] && w1.slots == [Live(a)];
    var w2 := Do(w1, Commit(1, false));
    assert w2.decided == [Decided(Batch(base, [a]), false)] && w2.pending == [];
  }

  /** A drained topic after one record was written alone. */
  function Written(w: World, b: Rec): World {
    var s := w.base + |w.slots|;
    w.(slots := w.slots + [Live(b)], visible := |w.slots| + 1, edge := |w.slots| + 1, log := w.log + [Append(s, b)],
       applied := w.applied + [Append(s, b)], acked := w.acked[s := b], doomed := w.doomed - {s})
  }

  /** One batch staged and committed alone. */
  lemma StageAndCommit(w: World, b: Rec, w1: World, w2: World)
    requires w.pending == [] && w.decided == [] && w1 == Do(w, Stage([b])) && w2 == Do(w1, Commit(1, true))
    ensures var s := w.base + |w.slots|;
            w2 == w.(slots := w.slots + [Live(b)], log := w.log + [Append(s, b)], doomed := w.doomed - {s},
                     decided := [Decided(Batch(s, [b]), true)])
  {
    var s := w.base + |w.slots|;
    var x := Batch(s, [b]);
    assert Range(s, s + 1) == {s};
    assert w1.pending == [x] && w1.slots == w.slots + [Live(b)] && [x][..1] == [x] && [x][1..] == [];
    assert AllFrames([x]) == Frames(x) + AllFrames([x][1..]) && Frames(x) == [Append(x.start, b)];
  }

  lemma TurnPublishes(w: World, s: nat, b: Rec)
    requires w.decided == [Decided(Batch(s, [b]), true)] && w.base <= s < w.base + |w.slots|
    ensures Do(w, Turn) == w.(decided := [], visible := s - w.base + 1, edge := s - w.base + 1,
                              applied := w.applied + [Append(s, b)], acked := w.acked[s := b])
  {
    assert w.decided[1..] == [] && Frames(Batch(s, [b])) == [Append(s, b)];
    assert WithBatch(w.acked, s, [b]) == w.acked[s := b];
  }

  /** The record is staged, committed and published. */
  lemma WriteIsWritten(w: World, b: Rec)
    requires w.pending == [] && w.decided == []
    ensures Do(Do(Do(w, Stage([b])), Commit(1, true)), Turn) == Written(w, b)
  {
    var w1 := Do(w, Stage([b]));
    var w2 := Do(w1, Commit(1, true));
    StageAndCommit(w, b, w1, w2);
    TurnPublishes(w2, w.base + |w.slots|, b);
  }

  lemma WrittenIsReachable(w: World, b: Rec)
    requires Reachable(w) && w.pending == [] && w.decided == []
    ensures Reachable(Written(w, b))
  {
    var w1 := Do(w, Stage([b]));
    ReachableStep(w, Stage([b]));
    var w2 := Do(w1, Commit(1, true));
    ReachableStep(w1, Commit(1, true));
    ReachableStep(w2, Turn);
    WriteIsWritten(w, b);
  }

  /** From there, the next record is acknowledged one seq above, and a crash loses it. */
  lemma NextAckIsLost(w: World, b: Rec)
    requires w.slots == [Hole] && w.visible == 0 && w.log == [] && w.pending == [] && w.decided == []
             && w.acked == map[]
    requires w.image == Start(w.base).image && w.from == 0
    ensures Do(Do(Do(w, Stage([b])), Commit(1, true)), Turn) == Written(w, b)
    ensures Written(w, b).acked == map[w.base + 1 := b] && Do(Written(w, b), Crash(0)).slots == []
  {
    WriteIsWritten(w, b);
    NextIsAlone(w, b, Written(w, b));
  }

  lemma NextIsAlone(w: World, b: Rec, w1: World)
    requires w.slots == [Hole] && w.log == [] && w.pending == [] && w.acked == map[] && w1 == Written(w, b)
    requires w.image == Start(w.base).image && w.from == 0
    ensures w1.acked == map[w.base + 1 := b] && Do(w1, Crash(0)).slots == []
  {
    LoneFrameIsSkipped(w1, Append(w.base + 1, b));
  }

  lemma LoneFrameIsSkipped(w: World, f: Frame)
    requires w.image == Start(w.base).image && w.from == 0 && f.Append? && f.s == w.base + 1
    requires w.log == [f] && w.pending == []
    ensures Do(w, Crash(0)).slots == []
  {
    var x := Restore(w.image);
    assert AllFrames(w.pending) == [] && Survivors(w, 0) == [f];
    assert [f][0..] == [f] && [f][..0] == [];
    assert TakeAll(x, [f]) == Take(x, f) == x;
  }

  // ---- a record over a whole run --------------------------------------------

  /** `s` is acknowledged as `rec`, and readable unless a delete struck it. */
  ghost predicate Standing(w: World, s: nat, rec: Rec) {
    && s in w.acked && w.acked[s] == rec && w.base <= s < w.base + |w.slots|
    && (s !in w.doomed ==> w.slots[s - w.base] == Live(rec))
  }

  lemma AckedIsStanding(w: World, s: nat)
    requires Inv(w) && s in w.acked
    ensures Standing(w, s, w.acked[s])
  {
  }

  /** Without a crash every acknowledged record stays so. */
  lemma StepKeepsAcked(w: World, step: Step, s: nat)
    requires Inv(w) && !step.Crash? && s in w.acked
    ensures s in Do(w, step).acked && Do(w, step).acked[s] == w.acked[s]
  {
    if step.Turn? && w.decided != [] { TicketInSlots(w); }
  }

  /** On the way no delete strikes `s`. */
  ghost predicate Untouched(w: World, steps: seq<Step>, s: nat)
    decreases |steps|
  {
    s !in w.doomed && (steps != [] ==> Untouched(Do(w, steps[0]), steps[1..], s))
  }

  /** `s` survives the crash, or a record of equal content lands on it. */
  ghost predicate ComesThrough(w: World, j: nat, s: nat) { s in w.acked && (Survives(w, s) || Twin(w, j, s)) }

  /** It comes through every crash on the way. */
  ghost predicate SurvivesAll(w: World, steps: seq<Step>, s: nat)
    decreases |steps|
  {
    steps == [] ||
    ((steps[0].Crash? ==> ComesThrough(w, steps[0].j, s)) && SurvivesAll(Do(w, steps[0]), steps[1..], s))
  }

  /** `s` is acknowledged as `rec` all the way. */
  ghost predicate Lasts(w: World, steps: seq<Step>, s: nat, rec: Rec)
    decreases |steps|
  {
    Standing(w, s, rec) && (steps == [] || Lasts(Do(w, steps[0]), steps[1..], s, rec))
  }

  /** A crash keeps a record no delete strikes exactly when it comes through. */
  lemma CrashKeepsExactlyWhen(w: World, j: nat, s: nat, w1: World)
    requires Inv(w) && s in w.acked && s !in w.doomed && Crashed(w, j, w1) && s !in w1.doomed
    ensures ComesThrough(w, j, s) <==> s in w1.acked
    ensures ComesThrough(w, j, s) ==> w1.acked[s] == w.acked[s]
  {
    CrashOutcome(w, j, s);
    BackIsKept(w, j, s, w1);
    SparedUnlessDoomed(w, j, s, w1);
  }

  /** One step keeps such a record, unless it is a crash it does not come through. */
  lemma StepKeepsExactlyWhen(w: World, step: Step, s: nat, w1: World)
    requires Inv(w) && s in w.acked && w1 == Do(w, step) && s !in w.doomed && s !in w1.doomed
    ensures (step.Crash? ==> ComesThrough(w, step.j, s)) <==> s in w1.acked
    ensures (step.Crash? ==> ComesThrough(w, step.j, s)) ==> w1.acked[s] == w.acked[s]
  {
    if step.Crash? {
      CrashIsCrashed(w, step.j, w1);
      CrashKeepsExactlyWhen(w, step.j, s, w1);
    } else {
      StepKeepsAcked(w, step, s);
    }
  }

  lemma {:induction false} LastsExactlyWhen(w: World, steps: seq<Step>, s: nat, rec: Rec)
    requires Inv(w) && Standing(w, s, rec) && Untouched(w, steps, s)
    ensures Lasts(w, steps, s, rec) <==> SurvivesAll(w, steps, s)
    decreases |steps|
  {
    if steps != [] {
      var w1 := Do(w, steps[0]);
      assert s !in w1.doomed;
      StaysStandingExactlyWhen(w, steps[0], w1, s, rec);
      if Standing(w1, s, rec) {
        StepKeepsInv(w, steps[0]);
        LastsExactlyWhen(w1, steps[1..], s, rec);
      }
    }
  }

  /** In every run, across any number of crashes and snapshots: a record acknowledged at some point
      and struck by no delete stays acknowledged under its seq and readable with its payload at
      every later point, if and only if it comes through every crash. */
  lemma AckedForeverExactlyWhen(base: nat, steps: seq<Step>, more: seq<Step>, s: nat)
    requires var w := Run(Start(base), steps); s in w.acked && Untouched(w, more, s)
    ensures var w := Run(Start(base), steps); Lasts(w, more, s, w.acked[s]) <==> SurvivesAll(w, more, s)
  {
    var w := Run(Start(base), steps);
    RunKeepsInv(base, steps);
    AckedIsStanding(w, s);
    LastsExactlyWhen(w, more, s, w.acked[s]);
  }

  lemma StaysStandingExactlyWhen(w: World, step: Step, w1: World, s: nat, rec: Rec)
    requires Inv(w) && Standing(w, s, rec) && w1 == Do(w, step) && s !in w.doomed && s !in w1.doomed
    ensures Standing(w1, s, rec) <==> (step.Crash? ==> ComesThrough(w, step.j, s))
  {
    StepKeepsExactlyWhen(w, step, s, w1);
    StepKeepsInv(w, step);
    if s in w1.acked { AckedIsStanding(w1, s); }
  }

  // ---- fail-stop runs -------------------------------------------------------

  /** Every snapshot finds the topic ending live, and no group commit succeeds between a failed one
      and the next crash, or the next snapshot that covers what was rolled back. */
  ghost predicate FailStop(base: nat, steps: seq<Step>) {
    steps == [] ||
    var n := |steps| - 1;
    && FailStop(base, steps[..n])
    && (steps[n].Snapshot? ==> EndsLive(IndexOf(Run(Start(base), steps[..n])), steps[n].front))
    && !(Run(Start(base), steps[..n]).broken && steps[n].Commit? && steps[n].ok)
  }

  /** The topic recovers exactly; failed tickets come last, nothing was rolled back below what is visible,
      and neither exists unless a commit failed. */
  ghost predicate Tidy(w: World) {
    && Exact(w)
    && (forall i, k :: 0 <= i < k < |w.decided| && w.decided[k].ok ==> w.decided[i].ok)
    && (forall k :: 0 <= k < |w.decided| && (w.rolled != {} || !w.broken) ==> w.decided[k].ok == (w.rolled == {}))
    && (!w.broken ==> w.rolled == {})
    && (forall r :: r in w.rolled ==> w.base + w.visible <= r)
    && w.lost == {}
  }

  /** Recovery from a topic that continues leaves one that does, and exactly. */
  lemma CrashIsExact(w: World, j: nat)
    requires Inv(w) && Continues(w)
    ensures var w1 := Do(w, Crash(j));
            Exact(w1) && w1.rolled == {} && w1.visible == |w1.slots| && w1.slots == Outcome(w, j).slots
  {
    var w1, y := Do(w, Crash(j)), Outcome(w, j);
    SinceRises(w, j);
    LevelReplay(Ground(w), SinceThen(w, j));
    CrashIsAnew(w, j);
    assert w1.born == w1.slots;
  }

  lemma StepStaysExact(w: World, step: Step)
    requires Inv(w) && Exact(w) && (step.Snapshot? ==> EndsLive(IndexOf(w), step.front))
    ensures Exact(Do(w, step))
  {
    match step
    case Crash(j) => CrashIsExact(w, j);
    case Snapshot(k, front) =>
      if w.decided == [] && w.pending == [] && |w.log0| <= k <= |w.log| && DeadFront(w.slots, front) {
        ContinuesIsAligned(w);
        SnapshotIsExact(w, k, front);
      }
    case _ =>
      var w1 := Do(w, step);
      assert Ground(w1) == Ground(w) && w1.born == w.born;
  }

  lemma TurnKeepsTidy(w: World)
    requires Inv(w) && Tidy(w)
    ensures Tidy(Do(w, Turn))
  {
    StepStaysExact(w, Turn);
    if w.decided != [] { TicketInSlots(w); }
  }

  lemma CommitKeepsTidy(w: World, k: nat, ok: bool)
    requires Tidy(w) && !(w.broken && ok)
    ensures Tidy(Do(w, Commit(k, ok)))
  {
  }

  lemma SnapshotKeepsTidy(w: World, k: nat, front: nat)
    requires Inv(w) && Tidy(w) && EndsLive(IndexOf(w), front)
    ensures Tidy(Do(w, Snapshot(k, front)))
  {
    StepStaysExact(w, Snapshot(k, front));
  }

  /** Tickets taken change neither what is published nor what is decided. */
  lemma TicketKeepsTidy(w: World, w1: World)
    requires Tidy(w) && w1 == w.(slots := w1.slots, pending := w1.pending, doomed := w1.doomed)
    ensures Tidy(w1)
  {
  }

  lemma NothingRolledBelow(w: World, s: nat)
    requires Inv(w) && Tidy(w) && s in w.acked
    ensures !RolledBelow(w, s) && s < w.base + w.visible
  {
    ContinuesIsAligned(w);
    AckedIsPublished(w, s);
  }

  /** A crash in such a state keeps every acknowledged record, the seqs of deleted ones included. */
  lemma CrashLosesNone(w: World, j: nat, w1: World)
    requires Inv(w) && Tidy(w) && w1 == Do(w, Crash(j))
    ensures w1.acked == w.acked && w1.lost == {}
  {
    CrashIsCrashed(w, j, w1);
    CrashIsExact(w, j);
    forall s | s in w.acked ensures s in w1.acked && w1.acked[s] == w.acked[s] { CrashKeepsOne(w, j, s, w1); }
    assert w1.acked.Keys == w.acked.Keys;
  }

  lemma CrashKeepsOne(w: World, j: nat, s: nat, w1: World)
    requires Inv(w) && Tidy(w) && s in w.acked && Crashed(w, j, w1) && w1.visible == |w1.slots|
    ensures s in w1.acked && w1.acked[s] == w.acked[s]
  {
    NothingRolledBelow(w, s);
    CrashTakes(w, j, s);
    BackIsKept(w, j, s, w1);
    if s !in w1.doomed { CrashBringsBack(w, j, s, w1); }
  }

  lemma CrashBringsBack(w: World, j: nat, s: nat, w1: World)
    requires Inv(w) && Tidy(w) && s in w.acked && Crashed(w, j, w1) && s !in w1.doomed
    ensures IsBack(w, j, s)
  {
    NothingRolledBelow(w, s);
    CrashOutcome(w, j, s);
    SparedUnlessDoomed(w, j, s, w1);
    if s < w.base + |w.born| { ExactHolds(w, s); }
  }

  /** An exact recovery point holds every record published by then. */
  lemma ExactHolds(w: World, s: nat)
    requires Inv(w) && Exact(w) && s in w.acked && s < w.base + |w.born| && s !in w.doomed
    ensures Held(w, s)
  {
    assert w.slots[s - w.base] == Live(w.acked[s]);
  }

  lemma StepKeepsTidy(w: World, step: Step)
    requires Inv(w) && Tidy(w) && !(w.broken && step.Commit? && step.ok)
    requires step.Snapshot? ==> EndsLive(IndexOf(w), step.front)
    ensures Tidy(Do(w, step))
    ensures forall s :: s in w.acked ==> s in Do(w, step).acked && Do(w, step).acked[s] == w.acked[s]
  {
    match step
    case Crash(j) => CrashKeepsTidy(w, j);
    case Turn =>
      TurnKeepsTidy(w);
      forall s | s in w.acked ensures s in Do(w, step).acked && Do(w, step).acked[s] == w.acked[s] {
        StepKeepsAcked(w, step, s);
      }
    case Commit(k, ok) => CommitKeepsTidy(w, k, ok);
    case Snapshot(k, front) => SnapshotKeepsTidy(w, k, front);
    case Stage(_) => TicketKeepsTidy(w, Do(w, step));
    case StageDelete(_, _) => TicketKeepsTidy(w, Do(w, step));
  }

  lemma CrashKeepsTidy(w: World, j: nat)
    requires Inv(w) && Tidy(w)
    ensures Tidy(Do(w, Crash(j))) && Do(w, Crash(j)).acked == w.acked
  {
    CrashLosesNone(w, j, Do(w, Crash(j)));
    CrashIsExact(w, j);
  }

  lemma {:induction false} RunIsTidy(base: nat, steps: seq<Step>)
    requires FailStop(base, steps)
    ensures Tidy(Run(Start(base), steps))
  {
    if steps == [] {
      StartIsTidy(base);
    } else {
      var n := |steps| - 1;
      RunIsTidy(base, steps[..n]);
      RunKeepsInv(base, steps[..n]);
      StepKeepsTidy(Run(Start(base), steps[..n]), steps[n]);
    }
  }

  lemma StartIsTidy(base: nat)
    ensures Tidy(Start(base))
  {
    var w := Start(base);
    assert w.log0[w.from..] == [] && Restore(w.image) == Index(base, [], base - 1, base - 1);
    assert Ground(w) == Restore(w.image);
  }

  lemma {:induction false} AckedStays(base: nat, steps: seq<Step>, m: nat, s: nat)
    requires FailStop(base, steps) && m <= |steps| && s in Run(Start(base), steps[..m]).acked
    ensures var w0, w := Run(Start(base), steps[..m]), Run(Start(base), steps);
            s in w.acked && w.acked[s] == w0.acked[s]
  {
    if m < |steps| {
      var n := |steps| - 1;
      assert steps[..n][..m] == steps[..m];
      AckedStays(base, steps[..n], m, s);
      RunKeepsInv(base, steps[..n]);
      RunIsTidy(base, steps[..n]);
      StepKeepsTidy(Run(Start(base), steps[..n]), steps[n]);
    } else {
      assert steps[..m] == steps;
    }
  }

  /** In every fail-stop run, across any number of crashes and snapshots, every record acknowledged
      at any earlier point stands: it is still acknowledged under its seq, is readable with its
      payload unless a delete struck it, and its seq lies below the head and so below everything
      a later append can get. */
  lemma FailStopKeepsAcked(base: nat, steps: seq<Step>, m: nat, s: nat)
    requires FailStop(base, steps) && m <= |steps| && s in Run(Start(base), steps[..m]).acked
    ensures var w := Run(Start(base), steps);
            Standing(w, s, Run(Start(base), steps[..m]).acked[s]) && s < w.base + w.visible <= w.base + |w.slots|
  {
    var w := Run(Start(base), steps);
    AckedStays(base, steps, m, s);
    RunKeepsInv(base, steps);
    RunIsTidy(base, steps);
    AckedIsStanding(w, s);
    NothingRolledBelow(w, s);
    ContinuesIsAligned(w);
  }

  // ---- what counts as deleted -----------------------------------------------

  /** Seqs handed out anew do not count as deleted. */
  lemma StagedIsNotDoomed(w: World, recs: seq<Rec>, s: nat)
    requires w.base + |w.slots| <= s < w.base + |w.slots| + |recs|
    ensures s !in Do(w, Stage(recs)).doomed
  {
  }

  /** A seq counts as deleted from the turn of a committed delete that picks its record on, or from a
      crash that a delete of it in flight survives. */
  lemma NewlyDoomedIsDeleted(w: World, step: Step, s: nat)
    requires s !in w.doomed && s in Do(w, step).doomed
    ensures w.base <= s < w.base + |w.slots| && w.slots[s - w.base].Live?
    ensures var slot := w.slots[s - w.base];
            || (&& step.Turn? && w.decided != [] && w.decided[0].ok && w.decided[0].work.Del?
                && Picks(w.decided[0].work.sel, s, slot))
            || (step.Crash? && exists f :: f in InFlight(w, step.j) && Strikes(f, s, slot))
  {
    if step.Crash? { NewlyStruck(w, InFlight(w, step.j), s); }
  }

  lemma NewlyStruck(w: World, frames: seq<Frame>, s: nat)
    requires s in Struck(w.base, w.slots, frames)
    ensures w.base <= s < w.base + |w.slots| && w.slots[s - w.base].Live?
    ensures exists f :: f in frames && Strikes(f, s, w.slots[s - w.base])
  {
    var k :| 0 <= k < |frames| && Strikes(frames[k], s, w.slots[s - w.base]);
    assert frames[k] in frames;
  }

  // ---- the head -------------------------------------------------------------

  /** Between crashes staging never reuses a seq, and while the last snapshot or recovery left the
      head within the slots it only rises. Otherwise it goes back when a batch is published that
      ends below it, and only then. */
  lemma HeadGoesBackExactlyWhen(w: World, step: Step)
    requires Reachable(w) && !step.Crash?
    ensures |w.slots| <= |Do(w, step).slots|
    ensures Aligned(w) ==> w.visible <= Do(w, step).visible
    ensures Do(w, step).visible < w.visible <==>
            && step.Turn? && w.decided != [] && w.decided[0].ok && w.decided[0].work.Batch?
            && w.edge + |w.decided[0].work.recs| < w.visible
  {
    ReachableKeepsInv(w);
    if step.Turn? && w.decided != [] { TicketInSlots(w); }
  }
}
