/** What a delete removes live and what its frame removes when the log is replayed
    (`delete` in `src/engine/mod.rs`, `replay_frame` in `src/engine/recovery.rs`). */
module DeleteReplay {
  import opened Common
  import opened TopicLog
  import opened TopicSnapshot
  import opened WritePath
  import opened IndexReplay
  import opened WriteRuns
  import opened CrashRuns
  import opened Durability
  import opened SnapshotReplay

  /** What the applied frames replay to. */
  function Rebuilt(w: World): Index { TakeAll(Ground(w), w.applied) }

  /** The slots of the last snapshot or recovery ended below the head: the append behind the head,
      of this record, lands on `s` when the applied frames are replayed. */
  ghost predicate Landed(w: World, s: nat, rec: Rec) {
    var x := Ground(w);
    s == w.base + |x.slots| && s <= x.head && Lands(x, w.applied, rec)
  }

  // ---- what the applied frames replay to ------------------------------------

  /** A record is in slot `i` after replay exactly when it is published there and survives, or it
      landed there. */
  ghost predicate SlotReplays(w: World, i: nat, rec: Rec)
    requires i < |w.slots|
  {
    var t := Rebuilt(w);
    i < |t.slots| && t.slots[i] == Live(rec) <==>
    (i < w.visible && w.slots[i] == Live(rec) && Survives(w, w.base + i)) || Landed(w, w.base + i, rec)
  }

  lemma HeldReplays(w: World, i: nat, rec: Rec)
    requires Inv(w) && i < |w.born| && i < |Ground(w).slots|
    ensures SlotReplays(w, i, rec)
  {
    KeepsUnlessStruck(Ground(w), w.applied, i);
  }

  lemma ContinuedReplays(w: World, i: nat, rec: Rec)
    requires Inv(w) && Continues(w) && |w.born| <= i < |w.slots|
    ensures SlotReplays(w, i, rec)
  {
    AppliedOutcome(w);
    if i < w.visible && w.slots[i].Live? { ReplayedReaches(w, Rebuilt(w), w.base + i); }
  }

  /** Nothing is let in, and nothing lands. */
  lemma LowReplays(w: World, i: nat, rec: Rec)
    requires Inv(w) && Low(Ground(w), |w.born|, w.rolled)
    ensures |Rebuilt(w).slots| == |Ground(w).slots| && !Lands(Ground(w), w.applied, rec)
    ensures i < |Ground(w).slots| && |w.born| <= i ==> Rebuilt(w).slots[i] == Hole
  {
    forall f | f in w.applied && f.Append? ensures f.s != Ground(w).head + 1 { AppliedIsNotRolled(w, f); }
    NoneLetIn(Ground(w), w.applied);
    NoneLands(Ground(w), w.applied, rec);
    if i < |Ground(w).slots| { KeepsUnlessStruck(Ground(w), w.applied, i); }
  }

  lemma ShortReplays(w: World, i: nat, rec: Rec)
    requires Inv(w) && Short(Ground(w), |w.born|) && |Ground(w).slots| <= i < |w.slots|
    ensures SlotReplays(w, i, rec)
  {
    var x := Ground(w);
    ShortReplay(x, w.base + |w.born|, w.base + w.edge, w.applied);
    if Lands(x, w.applied, rec) { LandsIsLetIn(x, w.applied, rec); }
  }

  lemma SlotReplaysAlways(w: World, i: nat, rec: Rec)
    requires Inv(w) && i < |w.slots|
    ensures SlotReplays(w, i, rec)
  {
    if i < |w.born| && i < |Ground(w).slots| {
      HeldReplays(w, i, rec);
    } else if Continues(w) {
      ContinuedReplays(w, i, rec);
    } else if Low(Ground(w), |w.born|, w.rolled) {
      LowReplays(w, i, rec);
    } else {
      ShortReplays(w, i, rec);
    }
  }

  lemma LowIsWithin(w: World)
    requires Inv(w) && Low(Ground(w), |w.born|, w.rolled)
    ensures |Rebuilt(w).slots| <= |w.slots|
  {
    LowReplays(w, 0, Rec(None, ""));
    var n := |Ground(w).slots|;
    if |w.born| < n { assert w.base + n - 1 in w.rolled; }
  }

  lemma ShortIsWithin(w: World)
    requires Line(w) && Ground(w).base == w.base && Short(Ground(w), |w.born|)
    ensures |Rebuilt(w).slots| <= |w.slots|
  {
    ShortReplay(Ground(w), w.base + |w.born|, w.base + w.edge, w.applied);
    RisesBounds(w.base + |w.born|, w.base + w.edge, w.applied);
  }

  /** Replay has no more slots than the topic, and behind a topic that continues misses only what is
      rolled back or lies above it. */
  lemma RebuiltIsWithin(w: World)
    requires Inv(w)
    ensures var n := |Rebuilt(w).slots|;
            n <= |w.slots| && (Continues(w) ==> n <= w.visible && (w.rolled == {} ==> n == w.visible))
  {
    if Continues(w) {
      AppliedOutcome(w);
    } else if Low(Ground(w), |w.born|, w.rolled) {
      LowIsWithin(w);
    } else {
      ShortIsWithin(w);
    }
  }

  // ---- point-in-time deletes ------------------------------------------------

  /** The first ticket is a committed delete with this selector. */
  predicate Deletes(w: World, sel: Selector) { w.decided != [] && w.decided[0] == Decided(Del(sel), true) }

  /** The frame picks a record on `s` that was logged under another seq. */
  ghost predicate PicksStray(w: World, sel: Selector, s: nat) {
    exists rec :: Landed(w, s, rec) && Picks(sel, s, Live(rec))
  }

  /** While the head is within the slots a delete picks published records only. */
  lemma PicksPublished(w: World, sel: Selector, i: nat)
    requires Inv(w) && Deletes(w, sel) && i < |w.slots| && Picks(sel, w.base + i, w.slots[i])
    ensures Aligned(w) ==> i < w.visible
    ensures Survives(w, w.base + i) ==> i < w.visible
  {
    if Aligned(w) {
      var rest := FirstTicket(w);
    }
    if Continues(w) { ContinuesIsAligned(w); }
  }

  /** On replay its frame picks a record in slot `i` exactly when it picks it live there and the
      record survives, or when it picks one that landed there. */
  lemma PicksOnReplay(w: World, sel: Selector, i: nat)
    requires Inv(w) && Deletes(w, sel) && i < |w.slots|
    ensures var t := Rebuilt(w);
            i < |t.slots| && Picks(sel, w.base + i, t.slots[i]) <==>
            (Picks(sel, w.base + i, w.slots[i]) && Survives(w, w.base + i)) || PicksStray(w, sel, w.base + i)
  {
    var t, s := Rebuilt(w), w.base + i;
    if i < |t.slots| && t.slots[i].Live? { SlotReplaysAlways(w, i, t.slots[i].rec); }
    if Picks(sel, s, w.slots[i]) {
      SlotReplaysAlways(w, i, w.slots[i].rec);
      PicksPublished(w, sel, i);
    }
    if PicksStray(w, sel, s) {
      var rec :| Landed(w, s, rec) && Picks(sel, s, Live(rec));
      SlotReplaysAlways(w, i, rec);
    }
  }

  /** In every state of every run, for a committed delete at its turn: it removes what it picks from
      the live slots, while the last snapshot or recovery left the head within them nothing at or
      above the bound it logged, and so no record staged or published after it was requested. On
      replay its frame, right behind those applied, removes a record if and only if the live
      delete does and the record survives, or it is one that landed on another seq. Behind a topic
      that continues only rolled-back seqs and what lies above them are missing then. */
  lemma DeleteIsPointInTime(w: World, sel: Selector, i: nat)
    requires Reachable(w) && Deletes(w, sel) && i < |w.slots|
    ensures w.log == w.log0 + w.applied + ([Delete(sel)] + OkFrames(w.decided[1..]))
    ensures Do(w, Turn).slots == Erase(w.base, w.slots, sel)
    ensures Aligned(w) && Picks(sel, w.base + i, w.slots[i]) ==> i < w.visible && w.base + i < sel.bound
    ensures var t := Rebuilt(w);
            i < |t.slots| && Picks(sel, w.base + i, t.slots[i]) <==>
            (Picks(sel, w.base + i, w.slots[i]) && Survives(w, w.base + i)) || PicksStray(w, sel, w.base + i)
    ensures var n := |Rebuilt(w).slots|;
            n <= |w.slots| && (Continues(w) ==> n <= w.visible && (w.rolled == {} ==> n == w.visible))
  {
    ReachableKeepsInv(w);
    TurnDeletes(w, sel);
    PicksOnReplay(w, sel, i);
    RebuiltIsWithin(w);
    if Picks(sel, w.base + i, w.slots[i]) { PicksPublished(w, sel, i); }
  }

  lemma TurnDeletes(w: World, sel: Selector)
    requires Line(w) && Deletes(w, sel)
    ensures w.log == w.log0 + w.applied + ([Delete(sel)] + OkFrames(w.decided[1..]))
    ensures Do(w, Turn).slots == Erase(w.base, w.slots, sel)
  {
  }

  /** Replay removes the same records if and only if every record the live delete picks survives, or
      a picked one landed on its seq, and none landed on another seq that the frame picks. */
  lemma DeleteReplaysExactlyWhen(w: World, sel: Selector)
    requires Reachable(w) && Deletes(w, sel)
    ensures Picked(w.base, Rebuilt(w).slots, sel) == Picked(w.base, w.slots, sel) <==>
            forall i :: 0 <= i < |w.slots| ==>
              if Picks(sel, w.base + i, w.slots[i]) then Survives(w, w.base + i) || PicksStray(w, sel, w.base + i)
              else !PicksStray(w, sel, w.base + i)
  {
    ReachableKeepsInv(w);
    RebuiltIsWithin(w);
    forall i | 0 <= i < |w.slots|
      ensures var t := Rebuilt(w);
              i < |t.slots| && Picks(sel, w.base + i, t.slots[i]) <==>
              (Picks(sel, w.base + i, w.slots[i]) && Survives(w, w.base + i)) || PicksStray(w, sel, w.base + i)
    {
      PicksOnReplay(w, sel, i);
    }
    SamePicked(w.base, Rebuilt(w).slots, w.slots, sel);
  }

  lemma SamePicked(base: nat, a: seq<Slot>, b: seq<Slot>, sel: Selector)
    requires |a| <= |b|
    ensures Picked(base, a, sel) == Picked(base, b, sel) <==>
            forall i :: 0 <= i < |b| ==> ((i < |a| && Picks(sel, base + i, a[i])) <==> Picks(sel, base + i, b[i]))
  {
    forall i | 0 <= i < |b|
      ensures base + i in Picked(base, b, sel) <==> Picks(sel, base + i, b[i])
      ensures base + i in Picked(base, a, sel) <==> i < |a| && Picks(sel, base + i, a[i])
    {
    }
    if forall i :: 0 <= i < |b| ==> ((i < |a| && Picks(sel, base + i, a[i])) <==> Picks(sel, base + i, b[i])) {
      forall s ensures s in Picked(base, a, sel) <==> s in Picked(base, b, sel) {
        if s in Picked(base, a, sel) || s in Picked(base, b, sel) { assert base + (s - base) == s; }
      }
    }
  }

  /** In every fail-stop run a delete removes on replay exactly what it removes live. */
  lemma FailStopDeletesReplay(base: nat, steps: seq<Step>, w: World, sel: Selector)
    requires FailStop(base, steps) && w == Run(Start(base), steps) && Deletes(w, sel)
    ensures Picked(w.base, Rebuilt(w).slots, sel) == Picked(w.base, w.slots, sel)
  {
    RunIsTidy(base, steps);
    RunKeepsInv(base, steps);
    forall i | 0 <= i < |w.slots|
      ensures !PicksStray(w, sel, w.base + i)
      ensures Picks(sel, w.base + i, w.slots[i]) ==> Survives(w, w.base + i)
    {
      if Picks(sel, w.base + i, w.slots[i]) { TidyPickSurvives(w, sel, i); }
    }
    assert Reachable(w);
    DeleteReplaysExactlyWhen(w, sel);
  }

  lemma TidyPickSurvives(w: World, sel: Selector, i: nat)
    requires Inv(w) && Tidy(w) && Deletes(w, sel) && i < |w.slots| && Picks(sel, w.base + i, w.slots[i])
    ensures Survives(w, w.base + i)
  {
    ContinuesIsAligned(w);
    PicksPublished(w, sel, i);
  }

  // ---- a delete that strikes more on replay ---------------------------------

  lemma ShiftedThenStruck(a: Rec, c: Rec)
    ensures var x := Index(1, [Live(a)], 2, 2);
            Reconcile(TakeAll(x, [Append(3, c), Delete(Selector(Some(3), None, 4))])) == Index(1, [Hole, Hole], 2, 2)
  {
    var x, f, g := Index(1, [Live(a)], 2, 2), Append(3, c), Delete(Selector(Some(3), None, 4));
    assert [f, g][..1] == [f] && [f][..0] == [];
    assert TakeAll(x, [f]) == Take(x, f) && Take(x, f).slots == [Live(a), Live(c)];
    assert Erase(1, [Live(a), Live(c)], g.sel) == [Hole, Hole];
  }

  lemma ShiftedWrite(a: Rec, b: Rec, tag: string, c: Rec, w: World, w1: World)
    requires a.tag == None && b.tag == Some(tag) && w == TailDeleted(a, b, tag)
    requires w1 == Written(Captured(w, |w.log|, 0), c)
    ensures w1.base == 1 && w1.slots == [Live(a), Hole, Live(c)] && w1.visible == 3 && w1.pending == []
    ensures w1.decided == [] && 3 !in w1.doomed && w1.log == w.log + [Append(3, c)] && w1.from == |w.log|
    ensures Restore(w1.image) == Index(1, [Live(a)], 2, 2)
  {
    TailDeletedEndsInHole(a, b, tag);
    HoleEndImage(a);
  }

  /** The third record of `DeletedTailShiftsNext` is acknowledged as seq 3, and then everything before
      seq 3 is deleted. The live topic keeps the record; on replay it lands on seq 2, below the
      delete's limit, and a crash loses it. */
  lemma SparedRecordIsStruck(a: Rec, b: Rec, tag: string, c: Rec, w: World, w1: World, w2: World)
    requires a.tag == None && b.tag == Some(tag) && w == TailDeleted(a, b, tag)
    requires w1 == Written(Captured(w, |w.log|, 0), c) && w2 == Deleted(w1, Some(3), None)
    ensures Reachable(w2) && w2.slots == [Hole, Hole, Live(c)] && 3 in w2.acked && 3 !in w2.doomed
    ensures Do(w1, Crash(0)).slots == [Live(a), Live(c)] && Do(w2, Crash(0)).slots == [Hole, Hole]
  {
    DeletedTailShiftsNext(a, b, tag, c, w, w1);
    ShiftedWrite(a, b, tag, c, w, w1);
    DeletedIsReachable(w1, Some(3), None);
    StruckAfterShift(a, c, w.log, w1, w2);
  }

  lemma StruckAfterShift(a: Rec, c: Rec, log: seq<Frame>, w1: World, w2: World)
    requires w1.base == 1 && w1.slots == [Live(a), Hole, Live(c)] && w1.visible == 3 && w1.pending == []
    requires 3 !in w1.doomed && w1.log == log + [Append(3, c)] && w1.from == |log|
    requires Restore(w1.image) == Index(1, [Live(a)], 2, 2) && w2 == Deleted(w1, Some(3), None)
    ensures w2.slots == [Hole, Hole, Live(c)] && 3 !in w2.doomed && Do(w2, Crash(0)).slots == [Hole, Hole]
  {
    var more := [Append(3, c), Delete(Selector(Some(3), None, 4))];
    ShiftedThenStruck(a, c);
    assert w2.log == log + more;
    CrashWhenDrained(w2, log, more);
  }
}
