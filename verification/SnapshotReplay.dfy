/** Snapshots and the log behind them: when the record written next survives, what happens when
    the last published record was deleted, and when recovery from a snapshot gives what replay of
    the whole log gives. */
module SnapshotReplay {
  import opened Common
  import opened TopicLog
  import opened TopicSnapshot
  import opened WritePath
  import opened IndexReplay
  import opened WriteRuns
  import opened CrashRuns
  import opened Durability

  // ---- the record written next ----------------------------------------------

  lemma CapturedIsReachable(w: World, k: nat, front: nat)
    requires Reachable(w) && w.decided == [] && w.pending == [] && |w.log0| <= k <= |w.log| && DeadFront(w.slots, front)
    ensures Reachable(Captured(w, k, front))
  {
    ReachableStep(w, Snapshot(k, front));
  }

  /** With nothing in flight no delete is on its way. */
  lemma DrainedIsSpared(w: World, s: nat)
    requires w.decided == [] && w.pending == [] && w.base <= s < w.base + |w.slots|
    ensures InFlight(w, 0) == [] && Spared(w, 0, s)
  {
  }

  /** A record right behind a topic with no history yet is no twin. */
  lemma NextIsNoTwin(w1: World, b: Rec, w2: World, s: nat)
    requires Grounded(w1) && Anew(w1) && w2 == Written(w1, b) && s == w1.base + |w1.slots|
    ensures s in w2.acked && !Twin(w2, 0, s)
  {
    assert Ground(w2) == Ground(w1) && SinceThen(w2, 0) == [Append(s, b)];
  }

  lemma NextIsBehindRolled(w1: World, b: Rec, w2: World, s: nat)
    requires Anew(w1) && w2 == Written(w1, b) && s == w1.base + |w1.slots|
    ensures RolledBelow(w2, s) <==> w1.visible < |w1.slots|
  {
    if w1.visible < |w1.slots| { assert w1.base + w1.visible in w2.rolled; }
  }

  /** One record behind a drained topic with no history yet. */
  lemma NextAfter(w1: World, b: Rec, w2: World, s: nat)
    requires Grounded(w1) && Anew(w1) && w2 == Written(w1, b) && Inv(w2) && s == w1.base + |w1.slots|
    ensures s in w2.acked && (IsBack(w2, 0, s) <==> Continues(w1) && w1.visible == |w1.slots|)
  {
    NextIsNoTwin(w1, b, w2, s);
    NextIsBehindRolled(w1, b, w2, s);
    DrainedIsSpared(w2, s);
    CrashOutcome(w2, 0, s);
    assert Continues(w2) == Continues(w1);
    if Continues(w1) { ContinuesIsWithin(w1); }
  }

  /** A topic that continues has its head within the slots. */
  lemma ContinuesIsWithin(w: World)
    requires Grounded(w) && Anew(w) && Continues(w)
    ensures w.visible <= |w.slots|
  {
  }

  /** The snapshot and the write keep the invariant. */
  lemma WrittenKeepsInv(w: World, b: Rec)
    requires Inv(w) && w.pending == [] && w.decided == []
    ensures Inv(Written(w, b))
  {
    var w1 := Do(w, Stage([b]));
    StageKeepsInv(w, [b]);
    var w2 := Do(w1, Commit(1, true));
    CommitKeepsInv(w1, 1, true);
    TurnKeepsInv(w2);
    WriteIsWritten(w, b);
  }

  lemma CapturedIsFresh(w: World, k: nat, front: nat, w1: World)
    requires Line(w) && Past(w) && w.decided == [] && w.pending == [] && |w.log0| <= k <= |w.log|
    requires DeadFront(w.slots, front) && w1 == Captured(w, k, front)
    ensures Inv(w1) && Anew(w1) && (Continues(w1) <==> EndsLive(IndexOf(w), front))
  {
    SnapshotGround(w, k, front);
    SnapshotIsAnew(w, k, front);
    AnewIsInv(w1);
  }

  lemma WrittenAfter(w: World, b: Rec, w1: World, s: nat)
    requires Inv(w) && Anew(w) && w1 == Written(w, b) && s == w.base + |w.slots|
    ensures s in w1.acked && (IsBack(w1, 0, s) <==> Continues(w) && w.visible == |w.slots|)
  {
    WrittenKeepsInv(w, b);
    NextAfter(w, b, w1, s);
  }

  /** In every state of every run, with nothing in flight: a record acknowledged right after a
      snapshot comes back from a crash if and only if the head was within the slots, the topic
      ended in a live record or its reclaimed front was exactly what is published, and no
      rolled-back seq lay behind the head. */
  lemma SnapshotKeepsNextAckExactlyWhen(w: World, k: nat, front: nat, b: Rec, w1: World)
    requires Reachable(w) && w.decided == [] && w.pending == [] && |w.log0| <= k <= |w.log| && DeadFront(w.slots, front)
    requires w1 == Written(Captured(w, k, front), b)
    ensures var s := w.base + |w.slots|;
            s in w1.acked && (IsBack(w1, 0, s) <==> EndsLive(IndexOf(w), front) && w.visible == |w.slots|)
  {
    ReachableKeepsInv(w);
    var w0 := Captured(w, k, front);
    CapturedIsFresh(w, k, front, w0);
    WrittenAfter(w0, b, w1, w.base + |w.slots|);
  }

  // ---- a topic whose last records were deleted ------------------------------

  /** A drained topic after one delete alone. */
  function Deleted(w: World, before: Option<nat>, filter: Option<Filter>): World {
    var sel := Selector(before, filter, w.base + w.visible);
    w.(slots := Erase(w.base, w.slots, sel), log := w.log + [Delete(sel)], applied := w.applied + [Delete(sel)],
       doomed := w.doomed + Picked(w.base, w.slots, sel))
  }

  /** The delete is requested, committed and applied. */
  lemma DeleteIsDeleted(w: World, before: Option<nat>, filter: Option<Filter>)
    requires w.pending == [] && w.decided == []
    ensures Do(Do(Do(w, StageDelete(before, filter)), Commit(1, true)), Turn) == Deleted(w, before, filter)
  {
    var sel := Selector(before, filter, w.base + w.visible);
    var x := Del(sel);
    var w1 := Do(w, StageDelete(before, filter));
    assert w1.pending == [x] && [x][..1] == [x] && [x][1..] == [];
    assert AllFrames([x]) == Frames(x) + AllFrames([x][1..]) && Frames(x) == [Delete(sel)];
    var w2 := Do(w1, Commit(1, true));
    assert w2.decided == [Decided(x, true)] && w2.pending == [];
  }

  lemma DeletedIsReachable(w: World, before: Option<nat>, filter: Option<Filter>)
    requires Reachable(w) && w.pending == [] && w.decided == []
    ensures Reachable(Deleted(w, before, filter))
  {
    var delete := StageDelete(before, filter);
    var w1 := Do(w, delete);
    ReachableStep(w, delete);
    var w2 := Do(w1, Commit(1, true));
    ReachableStep(w1, Commit(1, true));
    ReachableStep(w2, Turn);
    DeleteIsDeleted(w, before, filter);
  }

  lemma StartIsReachable(base: nat)
    ensures Reachable(Start(base))
  {
    assert Start(base) == Run(Start(base), []);
  }

  /** Two records are written and the second is deleted. */
  function TailDeleted(a: Rec, b: Rec, tag: string): World {
    Deleted(Written(Written(Start(1), a), b), None, Some(Eq(tag)))
  }

  lemma TailDeletedEndsInHole(a: Rec, b: Rec, tag: string)
    requires a.tag == None && b.tag == Some(tag)
    ensures var w := TailDeleted(a, b, tag);
            && Reachable(w) && w.slots == [Live(a), Hole] && w.visible == 2 && w.base == 1 && w.pending == []
            && w.decided == [] && w.log0 == []
  {
    StartIsReachable(1);
    var w1 := Written(Start(1), a);
    WrittenIsReachable(Start(1), a);
    var w2 := Written(w1, b);
    WrittenIsReachable(w1, b);
    assert w2.slots == [Live(a), Live(b)] && w2.visible == 2;
    DeletedIsReachable(w2, None, Some(Eq(tag)));
  }

  lemma HoleEndImage(a: Rec)
    ensures Restore(Capture(Index(1, [Live(a), Hole], 2, 2), 0)) == Index(1, [Live(a)], 2, 2)
  {
    var slots := [Live(a), Hole];
    assert LastLive(slots, 0, 1) == 1 && LastLive(slots, 0, 2) == 1;
    RefillCuts(1, slots, 0, 2);
    assert slots[..1] == [Live(a)];
  }

  lemma ShiftedTake(a: Rec, c: Rec)
    ensures Reconcile(Take(Index(1, [Live(a)], 2, 2), Append(3, c))) == Index(1, [Live(a), Live(c)], 2, 2)
  {
  }

  /** A crash of a drained topic whose snapshot was taken at position `k` of its log. */
  lemma CrashWhenDrained(w: World, log: seq<Frame>, more: seq<Frame>)
    requires w.pending == [] && w.log == log + more && w.from == |log|
    ensures Do(w, Crash(0)).slots == Reconcile(TakeAll(Restore(w.image), more)).slots
    ensures Do(w, Crash(0)).visible ==
            Max(Reconcile(TakeAll(Restore(w.image), more)).head + 1 - w.base, 0)
  {
    assert AllFrames(w.pending) == [] && Survivors(w, 0) == w.log && (log + more)[|log|..] == more;
  }

  /** A snapshot is taken and a third record is acknowledged as seq 3: a crash brings it back as
      seq 2, and seq 3 is free again. */
  lemma DeletedTailShiftsNext(a: Rec, b: Rec, tag: string, c: Rec, w: World, w1: World)
    requires a.tag == None && b.tag == Some(tag) && w == TailDeleted(a, b, tag)
    requires w1 == Written(Captured(w, |w.log|, 0), c)
    ensures Reachable(w1) && w1.acked.Keys == {1, 2, 3} && w1.acked[3] == c
    ensures Do(w1, Crash(0)).slots == [Live(a), Live(c)]
  {
    TailDeletedEndsInHole(a, b, tag);
    CapturedIsReachable(w, |w.log|, 0);
    WrittenIsReachable(Captured(w, |w.log|, 0), c);
    HoleEndImage(a);
    ShiftedTake(a, c);
    CrashWhenDrained(w1, w.log, [Append(3, c)]);
    assert [Append(3, c)][..0] == [];
    assert TakeAll(Index(1, [Live(a)], 2, 2), [Append(3, c)]) == Take(Index(1, [Live(a)], 2, 2), Append(3, c));
  }

  // ---- a recovery that leaves the head beyond the slots ---------------------

  /** Three records are written and the last two deleted. */
  function TailsDeleted(a: Rec, b: Rec, c: Rec, tag: string): World {
    Deleted(Written(Written(Written(Start(1), a), b), c), None, Some(Eq(tag)))
  }

  lemma TailsDeletedEndsInHoles(a: Rec, b: Rec, c: Rec, tag: string)
    requires a.tag == None && b.tag == Some(tag) && c.tag == Some(tag)
    ensures var w := TailsDeleted(a, b, c, tag);
            && Reachable(w) && w.slots == [Live(a), Hole, Hole] && w.visible == 3 && w.base == 1 && w.pending == []
            && w.decided == [] && w.log0 == []
  {
    StartIsReachable(1);
    var w1 := Written(Start(1), a);
    WrittenIsReachable(Start(1), a);
    var w2 := Written(w1, b);
    WrittenIsReachable(w1, b);
    var w3 := Written(w2, c);
    WrittenIsReachable(w2, c);
    assert w3.slots == [Live(a), Live(b), Live(c)] && w3.visible == 3;
    DeletedIsReachable(w3, None, Some(Eq(tag)));
  }

  lemma HolesEndImage(a: Rec)
    ensures Restore(Capture(Index(1, [Live(a), Hole, Hole], 3, 3), 0)) == Index(1, [Live(a)], 3, 3)
  {
    var slots := [Live(a), Hole, Hole];
    assert LastLive(slots, 0, 1) == 1 && LastLive(slots, 0, 2) == 1 && LastLive(slots, 0, 3) == 1;
    RefillCuts(1, slots, 0, 3);
    assert slots[..1] == [Live(a)];
  }

  /** A snapshot and a crash: the head is back at seq 3 over a single slot. */
  lemma UnlevelRecovery(a: Rec, b: Rec, c: Rec, tag: string, w: World)
    requires a.tag == None && b.tag == Some(tag) && c.tag == Some(tag)
    requires w == Do(Captured(TailsDeleted(a, b, c, tag), |TailsDeleted(a, b, c, tag).log|, 0), Crash(0))
    ensures Reachable(w) && w.base == 1 && w.slots == [Live(a)] && w.visible == 3 && w.edge == 1
    ensures w.pending == [] && w.decided == [] && !Aligned(w)
  {
    var w0 := TailsDeleted(a, b, c, tag);
    var w1 := Captured(w0, |w0.log|, 0);
    TailsDeletedEndsInHoles(a, b, c, tag);
    CapturedIsReachable(w0, |w0.log|, 0);
    ReachableStep(w1, Crash(0));
    HolesEndImage(a);
    assert w0.log + [] == w0.log;
    CrashWhenDrained(w1, w0.log, []);
  }

  /** From there the next record gets seq 2 again, is visible before it is committed, and when it is
      published the head goes back from 3 to 2. */
  lemma UnlevelRecoveryMisleads(w: World, d: Rec)
    requires w.base == 1 && |w.slots| == 1 && w.visible == 3 && w.pending == [] && w.decided == []
    ensures var w1, w2 := Do(w, Stage([d])), Written(w, d);
            && |w1.slots| == 2 && w1.slots[1] == Live(d) && 1 < w1.visible && w1.log == w.log
            && Do(Do(w1, Commit(1, true)), Turn) == w2 && w2.visible == 2 && 2 in w2.acked
  {
    WriteIsWritten(w, d);
  }

  // ---- recovery without failed commits --------------------------------------

  lemma {:induction false} TimelyConcat(t: Topic, a: seq<Frame>, b: seq<Frame>)
    requires AllTimely(t, a) && AllTimely(Replay(t, a), b)
    ensures AllTimely(t, a + b)
  {
    if b == [] {
      assert a + b == a;
    } else {
      var n := |b| - 1;
      TimelyConcat(t, a, b[..n]);
      ReplayConcat(t, a, b[..n]);
      ConcatInit(a, b);
    }
  }

  lemma {:induction false} TimelyPrefix(t: Topic, a: seq<Frame>, j: nat)
    requires AllTimely(t, a) && j <= |a|
    ensures AllTimely(t, a[..j])
  {
    if j < |a| {
      TimelyPrefix(t, a[..|a| - 1], j);
      assert a[..|a| - 1][..j] == a[..j];
    } else {
      assert a[..j] == a;
    }
  }

  /** A batch staged at the tail, or a delete pinned at or below it, is timely. */
  ghost predicate AtTail(t: Topic, work: Work) {
    match work
    case Batch(start, _) => start == Next(t)
    case Del(sel) => sel.bound <= Next(t)
  }

  lemma {:induction false} WorkIsTimely(t: Topic, work: Work)
    requires AtTail(t, work)
    ensures AllTimely(t, Frames(work)) && Next(Replay(t, Frames(work))) == Next(t) + Size(work)
    decreases Size(work)
  {
    match work
    case Del(sel) =>
      assert Frames(work)[..0] == [];
    case Batch(start, recs) =>
      if recs != [] {
        var n := |recs| - 1;
        WorkIsTimely(t, Batch(start, recs[..n]));
        assert Frames(work)[..n] == Frames(Batch(start, recs[..n]));
      }
  }

  ghost predicate Pinned(works: seq<Work>, bound: nat) {
    forall k :: 0 <= k < |works| && works[k].Del? ==> works[k].sel.bound <= bound
  }

  /** Logging the first `k` outstanding works in order keeps the log timely, and the rest
      continues where it ends. */
  lemma {:induction false} CommitIsTimely(t: Topic, works: seq<Work>, k: nat, end: nat)
    requires Contiguous(works, Next(t), end) && Pinned(works, Next(t)) && k <= |works|
    ensures var t1 := Replay(t, AllFrames(works[..k]));
            && AllTimely(t, AllFrames(works[..k])) && Next(t) <= Next(t1)
            && Contiguous(works[k..], Next(t1), end) && Pinned(works[k..], Next(t1))
    decreases k
  {
    if k == 0 {
      assert works[..0] == [] && works[0..] == works;
    } else {
      var f, rest := Frames(works[0]), works[1..];
      WorkIsTimely(t, works[0]);
      var t1 := Replay(t, f);
      CommitIsTimely(t1, rest, k - 1, end);
      assert works[..k][1..] == rest[..k - 1] && works[..k][0] == works[0] && works[k..] == rest[k - 1..];
      TimelyConcat(t, f, AllFrames(rest[..k - 1]));
      ReplayConcat(t, f, AllFrames(rest[..k - 1]));
    }
  }

  /** The log so far is timely, and the pending works continue it. */
  ghost predicate TimelyLog(w: World) {
    var t := Replay(Fresh(w.base), w.log);
    && AllTimely(Fresh(w.base), w.log)
    && Contiguous(w.pending, Next(t), w.base + |w.slots|) && Pinned(w.pending, Next(t))
  }

  ghost predicate NoFailure(w: World) { w.rolled == {} && forall k :: 0 <= k < |w.decided| ==> w.decided[k].ok }

  /** The whole log up to the last snapshot or recovery replays to the slots published then, the
      snapshot has its head behind them, and if it continues it recovers exactly them. */
  ghost predicate Faithful(w: World) {
    && Replay(Fresh(w.base), w.log0) == At(w.base, w.born) && Aligned(w)
    && Ground(w).head + 1 == w.base + |w.born| && (Continues(w) ==> Ground(w).slots == w.born)
  }

  /** Without a failure the applied frames replay to what is published. */
  lemma AppliedIsPublished(w: World)
    requires Inv(w) && w.rolled == {} && Faithful(w)
    ensures Replay(Fresh(w.base), w.log0 + w.applied) == At(w.base, w.slots[..w.visible])
  {
    ReplayConcat(Fresh(w.base), w.log0, w.applied);
    ReplayStopsAtGap(At(w.base, w.born), w.applied);
    LevelReplay(Index(w.base, w.born, w.base + |w.born| - 1, 0), w.applied);
  }

  /** What is visible has been logged. */
  lemma VisibleIsReplayed(w: World)
    requires Inv(w) && w.rolled == {} && Faithful(w)
    ensures w.base + w.visible <= Next(Replay(Fresh(w.base), w.log))
  {
    AppliedIsPublished(w);
    ReplayConcat(Fresh(w.base), w.log0 + w.applied, OkFrames(w.decided));
  }

  /** The whole surviving log replays to what its frames since make of the slots of then. */
  lemma FullReplay(w: World, j: nat)
    requires Line(w) && Faithful(w)
    ensures Replay(Fresh(w.base), Survivors(w, j)) == Replay(At(w.base, w.born), SinceThen(w, j))
  {
    InFlightRises(w, j);
    ReplayConcat(Fresh(w.base), w.log0, SinceThen(w, j));
  }

  /** Recovery from a snapshot that continues is replay of the whole surviving log. */
  lemma RecoveryIsFullReplay(w: World, j: nat)
    requires Inv(w) && Faithful(w) && Continues(w)
    ensures Replay(Fresh(w.base), Survivors(w, j)) == At(w.base, After(w, j))
  {
    FullReplay(w, j);
    SinceRises(w, j);
    LevelReplay(Ground(w), SinceThen(w, j));
    CrashIsOutcome(w, j);
  }

  lemma CrashStaysFaithful(w: World, j: nat)
    requires Inv(w) && Faithful(w) && Continues(w)
    ensures Faithful(Do(w, Crash(j)))
  {
    var w1 := Do(w, Crash(j));
    RecoveryIsFullReplay(w, j);
    CrashIsExact(w, j);
    assert w1.born == w1.slots == After(w, j) && w1.log0 == Survivors(w, j);
  }

  lemma SnapshotStaysFaithful(w: World, k: nat, front: nat)
    requires Inv(w) && w.rolled == {} && Faithful(w)
    ensures Faithful(Do(w, Snapshot(k, front)))
  {
    if w.decided == [] && w.pending == [] && |w.log0| <= k <= |w.log| && DeadFront(w.slots, front) {
      CapturedIsFaithful(w, k, front, Captured(w, k, front));
    }
  }

  lemma CapturedIsFaithful(w: World, k: nat, front: nat, w1: World)
    requires Inv(w) && w.rolled == {} && Faithful(w) && w.decided == [] && w.pending == [] && |w.log0| <= k <= |w.log|
    requires DeadFront(w.slots, front) && w1 == Captured(w, k, front)
    ensures Faithful(w1)
  {
    AppliedIsPublished(w);
    assert w.log == w.log0 + w.applied;
    SnapshotHead(w, k, front, w1);
    SnapshotGround(w, k, front);
    if EndsLive(IndexOf(w), front) { SnapshotIsExact(w, k, front); }
  }

  lemma SnapshotHead(w: World, k: nat, front: nat, w1: World)
    requires Line(w) && w.decided == [] && |w.log0| <= k <= |w.log| && DeadFront(w.slots, front)
    requires w1 == Captured(w, k, front)
    ensures Ground(w1).head == w.base + w.visible - 1
  {
    OverlapLetsNoneIn(w, k, front);
    RestoreIsExactlyWhen(IndexOf(w), front);
  }

  lemma StepStaysFaithful(w: World, step: Step)
    requires Inv(w) && w.rolled == {} && Faithful(w) && (step.Crash? ==> Continues(w))
    ensures Faithful(Do(w, step))
  {
    match step
    case Crash(j) => CrashStaysFaithful(w, j);
    case Snapshot(k, front) => SnapshotStaysFaithful(w, k, front);
    case _ => QuietStaysFaithful(w, Do(w, step));
  }

  lemma QuietStaysFaithful(w: World, w1: World)
    requires Faithful(w) && w1.base == w.base && w1.image == w.image && w1.from == w.from && w1.log0 == w.log0
    requires w1.born == w.born && w1.head0 == w.head0
    ensures Faithful(w1)
  {
    assert Ground(w1) == Ground(w);
  }

  lemma CommitKeepsTimely(w: World, k: nat)
    requires TimelyLog(w) && k <= |w.pending|
    ensures TimelyLog(Do(w, Commit(k, true)))
  {
    var t := Replay(Fresh(w.base), w.log);
    CommitIsTimely(t, w.pending, k, w.base + |w.slots|);
    TimelyConcat(Fresh(w.base), w.log, AllFrames(w.pending[..k]));
    ReplayConcat(Fresh(w.base), w.log, AllFrames(w.pending[..k]));
  }

  lemma SurvivorsAreTimely(w: World, j: nat)
    requires TimelyLog(w)
    ensures AllTimely(Fresh(w.base), Survivors(w, j))
  {
    var t, rest, n := Replay(Fresh(w.base), w.log), AllFrames(w.pending), |w.pending|;
    CommitIsTimely(t, w.pending, n, w.base + |w.slots|);
    assert w.pending[..n] == w.pending;
    var cut := if j <= |rest| then j else |rest|;
    TimelyPrefix(t, rest, cut);
    TimelyConcat(Fresh(w.base), w.log, rest[..cut]);
  }

  lemma CrashKeepsTimely(w: World, j: nat)
    requires Inv(w) && Faithful(w) && TimelyLog(w) && Continues(w)
    ensures TimelyLog(Do(w, Crash(j)))
  {
    SurvivorsAreTimely(w, j);
    RecoveryIsFullReplay(w, j);
    CrashIsCrashed(w, j, Do(w, Crash(j)));
    DrainedIsTimely(Do(w, Crash(j)), Survivors(w, j));
  }

  lemma DrainedIsTimely(w: World, log: seq<Frame>)
    requires w.log == log && w.pending == [] && AllTimely(Fresh(w.base), log)
    requires Replay(Fresh(w.base), log) == At(w.base, w.slots)
    ensures TimelyLog(w)
  {
  }

  /** Staging a batch or a delete at the tail. */
  lemma TicketKeepsTimely(w: World, w1: World, x: Work)
    requires TimelyLog(w) && w1.log == w.log && w1.base == w.base && w1.pending == w.pending + [x]
             && |w1.slots| == |w.slots| + Size(x)
    requires x.Batch? ==> x.start == w.base + |w.slots| && x.recs != []
    requires x.Del? ==> x.sel.bound <= Next(Replay(Fresh(w.base), w.log))
    ensures TimelyLog(w1)
  {
    ContiguousSnoc(w.pending, x, Next(Replay(Fresh(w.base), w.log)), w.base + |w.slots|);
  }

  lemma TurnKeepsTimely(w: World)
    requires NoFailure(w) && TimelyLog(w)
    ensures NoFailure(Do(w, Turn)) && TimelyLog(Do(w, Turn))
  {
    var w1 := Do(w, Turn);
    assert w1.log == w.log && w1.pending == w.pending && w1.base == w.base && |w1.slots| == |w.slots|;
  }

  lemma SnapshotKeepsTimely(w: World, k: nat, front: nat)
    requires TimelyLog(w)
    ensures TimelyLog(Do(w, Snapshot(k, front)))
  {
    var w1 := Do(w, Snapshot(k, front));
    assert w1.log == w.log && w1.pending == w.pending && w1.base == w.base && w1.slots == w.slots;
  }

  lemma StepKeepsNoFailure(w: World, step: Step)
    requires Inv(w) && NoFailure(w) && !(step.Commit? && !step.ok) && (step.Crash? ==> Continues(w))
    ensures NoFailure(Do(w, step))
  {
    if step.Crash? { CrashIsExact(w, step.j); }
  }

  lemma StepKeepsTimely(w: World, step: Step)
    requires Inv(w) && NoFailure(w) && Faithful(w) && TimelyLog(w) && !(step.Commit? && !step.ok)
    requires step.Crash? ==> Continues(w)
    ensures TimelyLog(Do(w, step))
  {
    match step
    case Stage(recs) =>
      if recs != [] { TicketKeepsTimely(w, Do(w, step), Batch(w.base + |w.slots|, recs)); }
    case StageDelete(before, filter) =>
      VisibleIsReplayed(w);
      TicketKeepsTimely(w, Do(w, step), Del(Selector(before, filter, w.base + w.visible)));
    case Commit(k, ok) =>
      if k <= |w.pending| { CommitKeepsTimely(w, k); }
    case Turn => TurnKeepsTimely(w);
    case Snapshot(k, front) => SnapshotKeepsTimely(w, k, front);
    case Crash(j) => CrashKeepsTimely(w, j);
  }

  /** Every crash finds a topic that continues. */
  ghost predicate SoundCrashes(base: nat, steps: seq<Step>) {
    steps == [] ||
    var n := |steps| - 1;
    SoundCrashes(base, steps[..n]) && (steps[n].Crash? ==> Continues(Run(Start(base), steps[..n])))
  }

  lemma StartIsFaithful(base: nat)
    ensures var w := Start(base); NoFailure(w) && Faithful(w) && TimelyLog(w)
  {
    StartIsTidy(base);
    var w := Start(base);
    assert w.log0[w.from..] == [] && Ground(w) == Restore(w.image);
  }

  /** In every run without a failed commit and whose crashes find a topic that continues, the log
      stays timely, and replays to what recovery from snapshots gives. */
  lemma {:induction false} RunIsTimely(base: nat, steps: seq<Step>)
    requires SoundCrashes(base, steps) && forall k :: 0 <= k < |steps| && steps[k].Commit? ==> steps[k].ok
    ensures var w := Run(Start(base), steps); NoFailure(w) && Faithful(w) && TimelyLog(w)
  {
    if steps == [] {
      StartIsFaithful(base);
    } else {
      var n := |steps| - 1;
      var w := Run(Start(base), steps[..n]);
      RunIsTimely(base, steps[..n]);
      RunKeepsInv(base, steps[..n]);
      StepKeepsTimely(w, steps[n]);
      StepStaysFaithful(w, steps[n]);
      StepKeepsNoFailure(w, steps[n]);
    }
  }

  // ---- and when it does not give what full replay gives ---------------------

  /** A timely append is among the replayed slots. */
  lemma TimelyIsReplayed(t: Topic, log: seq<Frame>, f: Frame)
    requires AllTimely(t, log) && f in log && f.Append?
    ensures f.s < Next(Replay(t, log))
  {
    var k :| 0 <= k < |log| && log[k] == f;
    HistoryIsReflected(t, log, k);
  }

  /** A short topic recovers to fewer slots than a full replay: it misses at least one. */
  lemma ShortRecoversLess(w: World, j: nat, t: Topic)
    requires Line(w) && Ground(w).base == w.base && Short(Ground(w), |w.born|)
    requires Ground(w).head + 1 == w.base + |w.born|
    requires t.base == w.base && |w.born| <= |t.slots|
    requires forall f :: f in SinceThen(w, j) && f.Append? ==> f.s < Next(t)
    ensures |Reconcile(Outcome(w, j)).slots| < |t.slots|
  {
    SinceRises(w, j);
    ShortReplay(Ground(w), w.base + |w.born|, w.base + |w.slots|, SinceThen(w, j));
  }

  lemma NotContinuingIsShort(w: World)
    requires Inv(w) && w.rolled == {} && Faithful(w) && !Continues(w)
    ensures Short(Ground(w), |w.born|)
  {
  }

  lemma UnsoundSnapshotRecoversLess(w: World, j: nat)
    requires Inv(w) && w.rolled == {} && Faithful(w) && TimelyLog(w) && !Continues(w)
    ensures |After(w, j)| < |Replay(Fresh(w.base), Survivors(w, j)).slots|
  {
    var log := Survivors(w, j);
    var t := Replay(Fresh(w.base), log);
    NotContinuingIsShort(w);
    FullReplay(w, j);
    SurvivorsAreTimely(w, j);
    InFlightRises(w, j);
    forall f | f in SinceThen(w, j) && f.Append? ensures f.s < Next(t) {
      assert f in log;
      TimelyIsReplayed(Fresh(w.base), log, f);
    }
    ShortRecoversLess(w, j, t);
    CrashIsOutcome(w, j);
  }

  /** In every run without a failed commit and whose earlier crashes found a topic that continues,
      whenever its snapshots were taken and whatever log they overlap: recovery from the last one
      gives what replay of the whole log gives, if and only if the topic continues, that is, no
      unsound snapshot was taken since the last crash, or a sound one after it. */
  lemma SnapshotThenReplayExactlyWhen(base: nat, steps: seq<Step>, j: nat)
    requires SoundCrashes(base, steps) && forall i :: 0 <= i < |steps| && steps[i].Commit? ==> steps[i].ok
    ensures var w := Run(Start(base), steps);
            After(w, j) == Replay(Fresh(w.base), Survivors(w, j)).slots <==> Continues(w)
  {
    var w := Run(Start(base), steps);
    RunIsTimely(base, steps);
    RunKeepsInv(base, steps);
    if Continues(w) { RecoveryIsFullReplay(w, j); } else { UnsoundSnapshotRecoversLess(w, j); }
  }
}
