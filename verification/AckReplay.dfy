/** The durable deletes of acked jobs (`delete_one_seq` in `src/engine/queue.rs`): the frame is synced
    first and the record removed afterwards, without a publish ticket, so that a snapshot
    (`capture` in `src/engine/snapshot.rs`) may come in between. */
module AckReplay {
  import opened Common
  import opened TopicLog
  import opened TopicSnapshot
  import opened IndexReplay
  import W = WritePath

  /** The jobs log: what it holds, its durable log, the jobs whose delete is logged but not applied,
      the last snapshot and the position recovery replays from. `logged` are the jobs whose delete
      is durable and whose seq no other record took since. */
  datatype World = World(x: Index, log: seq<Frame>, flying: set<nat>, image: Image, from: nat, logged: set<nat>)

  datatype Step =
    | Write(rec: Rec)               // staged, committed and published
    | Erase(before: Option<nat>, filter: Option<Filter>)
    | LogAck(s: nat)                // the delete of an acked job is synced
    | ApplyAck(s: nat)              // and then applied
    | Snapshot(k: nat, front: nat)  // its log position was taken earlier
    | Crash

  function Start(base: nat): World {
    World(Index(base, [], base - 1, base - 1), [], {}, Image(base, 0, [], base - 1), 0, {})
  }

  /** What recovery replays. */
  function Tail(w: World): seq<Frame> { W.Behind(w.log, w.from) }

  /** The snapshot does not end where its head says, and the append behind the head landed at its end
      and is there. */
  ghost predicate Strays(w: World) {
    !Level(Restore(w.image)) && exists rec :: Lands(Restore(w.image), Tail(w), rec)
  }

  function End(w: World): nat { w.image.base + |Restore(w.image).slots| }

  /** Seq `s` has a slot. */
  predicate Present(w: World, s: nat) { w.x.base <= s < w.x.base + |w.x.slots| }

  ghost function Do(w: World, step: Step): World {
    match step
    case Write(rec) =>
      var s := w.x.base + |w.x.slots|;
      w.(x := w.x.(slots := w.x.slots + [Live(rec)], head := s), log := w.log + [Append(s, rec)],
         logged := w.logged - {s})
    case Erase(before, filter) =>
      var sel := Selector(before, filter, Max(w.x.head + 1, 0));
      w.(x := w.x.(slots := TopicLog.Erase(w.x.base, w.x.slots, sel)), log := w.log + [Delete(sel)])
    case LogAck(s) =>
      if !Present(w, s) then w else
      w.(log := w.log + [DeleteSeqs({s})], flying := w.flying + {s}, logged := w.logged + {s})
    case ApplyAck(s) =>
      if s !in w.flying then w else
      w.(x := w.x.(slots := EraseSeqs(w.x.base, w.x.slots, {s})), flying := w.flying - {s})
    case Snapshot(k, front) =>
      if !(w.from <= k <= |w.log|) || !DeadFront(w.x.slots, front) then w else
      w.(image := Capture(w.x, front), from := k)
    case Crash =>
      w.(x := W.Recover(w.image, w.log, w.from), flying := {},
         logged := if Strays(w) then w.logged - {End(w)} else w.logged)
  }

  ghost function Run(w: World, steps: seq<Step>): World {
    if steps == [] then w else Do(Run(w, steps[..|steps| - 1]), steps[|steps| - 1])
  }

  /** Slot `s` holds a record. */
  predicate LiveAt(x: Index, s: nat) { x.base <= s < x.base + |x.slots| && x.slots[s - x.base].Live? }

  /** The snapshot holds the job, and no delete behind its position strikes it. */
  ghost predicate Returns(w: World, s: nat) {
    var m := Restore(w.image);
    LiveAt(m, s) && !StruckIn(Tail(w), s, m.slots[s - m.base])
  }

  ghost predicate StruckIn(frames: seq<Frame>, s: nat, slot: Slot) { W.StruckBy(frames, s, slot) }

  // ---- the deletes in the log -----------------------------------------------

  /** The delete of `s` lies behind every append of it. */
  ghost predicate DeletedAt(log: seq<Frame>, s: nat, p: nat) {
    && p < |log| && log[p] == DeleteSeqs({s})
    && forall q :: p < q < |log| && log[q].Append? ==> log[q].s != s
  }

  ghost predicate AllDeleted(log: seq<Frame>, logged: set<nat>) {
    forall s :: s in logged ==> exists p: nat :: DeletedAt(log, s, p)
  }

  ghost predicate Sound(w: World) {
    && AllDeleted(w.log, w.logged) && w.from <= |w.log| && w.image.base == w.x.base <= w.x.head + 1
    && w.image.base <= w.image.head + 1
  }

  lemma StaysDeleted(log: seq<Frame>, f: Frame, s: nat, p: nat)
    requires DeletedAt(log, s, p) && (f.Append? ==> f.s != s)
    ensures DeletedAt(log + [f], s, p)
  {
  }

  lemma AllStayDeleted(log: seq<Frame>, f: Frame, logged: set<nat>, logged1: set<nat>)
    requires AllDeleted(log, logged) && logged1 <= logged && (f.Append? ==> f.s !in logged1)
    ensures AllDeleted(log + [f], logged1)
  {
    forall s | s in logged1 ensures exists p: nat :: DeletedAt(log + [f], s, p) {
      var p: nat :| DeletedAt(log, s, p);
      StaysDeleted(log, f, s, p);
    }
  }

  lemma SoundStep(w: World, step: Step)
    requires Sound(w)
    ensures Sound(Do(w, step))
  {
    var w1 := Do(w, step);
    match step
    case Write(rec) =>
      AllStayDeleted(w.log, Append(w.x.base + |w.x.slots|, rec), w.logged, w1.logged);
    case Erase(before, filter) =>
      AllStayDeleted(w.log, Delete(Selector(before, filter, Max(w.x.head + 1, 0))), w.logged, w.logged);
    case LogAck(s) =>
      AllStayDeleted(w.log, DeleteSeqs({s}), w.logged, w.logged);
      if Present(w, s) { assert DeletedAt(w1.log, s, |w.log|); }
    case ApplyAck(_) =>
    case Snapshot(_, _) =>
    case Crash => RecoveredIsSound(w);
  }

  lemma {:induction false} TakeKeepsHead(x: Index, frames: seq<Frame>)
    requires x.base <= x.head + 1
    ensures x.base <= TakeAll(x, frames).head + 1
  {
    if frames != [] { TakeKeepsHead(x, frames[..|frames| - 1]); }
  }

  lemma RecoveredIsSound(w: World)
    requires Sound(w)
    ensures var x := W.Recover(w.image, w.log, w.from); x.base == w.image.base <= x.head + 1
  {
    TakeKeepsHead(Restore(w.image), Tail(w));
  }

  lemma {:induction false} RunIsSound(base: nat, steps: seq<Step>)
    ensures Sound(Run(Start(base), steps))
  {
    if steps != [] {
      RunIsSound(base, steps[..|steps| - 1]);
      SoundStep(Run(Start(base), steps[..|steps| - 1]), steps[|steps| - 1]);
    }
  }

  /** A job whose delete is durable is followed until its seq is handed out anew, or another record
      lands on it. */
  lemma LoggedStays(w: World, step: Step, s: nat)
    requires s in w.logged && s !in Do(w, step).logged
    ensures || (step.Write? && s == w.x.base + |w.x.slots|)
            || (step.Crash? && Strays(w) && s == End(w))
  {
  }

  // ---- one crash ------------------------------------------------------------

  lemma NotAppended(frames: seq<Frame>, s: nat)
    requires forall q :: 0 <= q < |frames| && frames[q].Append? ==> frames[q].s != s
    ensures s !in W.Appended(frames)
  {
    AppendedIsIn(frames, s);
  }

  /** A job behind the snapshot is struck by its delete. */
  lemma BehindIsDead(m: Index, frames: seq<Frame>, p: nat, s: nat)
    requires DeletedAt(frames, s, p)
    requires m.base + |m.slots| <= s && (s == m.base + |m.slots| ==> Level(m))
    ensures !LiveAt(TakeAll(m, frames), s)
  {
    var y := TakeAll(m, frames);
    if s < m.base + |y.slots| {
      NotAppended(frames[p..], s);
      LetInBefore(m, frames, p, s - m.base);
      DeletedSeqIsHole(m, frames, p, s);
    }
  }

  /** Without an append behind the snapshot it has no slot. */
  lemma BehindIsAbsent(m: Index, frames: seq<Frame>, s: nat)
    requires m.base + |m.slots| <= s && (s == m.base + |m.slots| ==> Level(m)) && s !in W.Appended(frames)
    ensures m.base + |TakeAll(m, frames).slots| <= s
  {
    assert frames[0..] == frames && frames[..0] == [];
    if s < m.base + |TakeAll(m, frames).slots| { LetInBefore(m, frames, 0, s - m.base); }
  }

  lemma DeletedBehind(w: World, s: nat, p: nat)
    requires Sound(w) && DeletedAt(w.log, s, p)
    ensures p < w.from ==> s !in W.Appended(Tail(w))
    ensures p >= w.from ==> DeletedAt(Tail(w), s, p - w.from)
  {
    var frames := Tail(w);
    assert forall q :: 0 <= q < |frames| ==> frames[q] == w.log[w.from + q];
    if p < w.from { NotAppended(frames, s); }
  }

  lemma RestBehind(w: World, s: nat)
    requires Sound(w) && s in w.logged && End(w) <= s && (s == End(w) ==> Level(Restore(w.image)))
    ensures !LiveAt(TakeAll(Restore(w.image), Tail(w)), s)
  {
    var p: nat :| DeletedAt(w.log, s, p);
    DeletedBehind(w, s, p);
    if p < w.from {
      BehindIsAbsent(Restore(w.image), Tail(w), s);
    } else {
      BehindIsDead(Restore(w.image), Tail(w), p - w.from, s);
    }
  }

  lemma LandedIsLive(m: Index, frames: seq<Frame>, s: nat)
    requires s == m.base + |m.slots|
    ensures LiveAt(TakeAll(m, frames), s) <==> exists rec :: Lands(m, frames, rec)
  {
    var y := TakeAll(m, frames);
    if LiveAt(y, s) { LandedSlot(m, frames, y.slots[s - m.base].rec); }
    if exists rec :: Lands(m, frames, rec) {
      var rec :| Lands(m, frames, rec);
      LandedSlot(m, frames, rec);
    }
  }

  /** In any state of any run: after a crash a job whose delete is durable is live if and only if the
      snapshot holds it and no delete behind its position strikes it; or its seq is the one on
      which another record landed. */
  lemma BackExactlyWhen(w: World, s: nat)
    requires Sound(w) && s in w.logged
    ensures LiveAt(Do(w, Crash).x, s) <==> Returns(w, s) || (s == End(w) && Strays(w))
  {
    var m := Restore(w.image);
    var y := TakeAll(m, Tail(w));
    assert LiveAt(Do(w, Crash).x, s) <==> LiveAt(y, s);
    if m.base <= s < End(w) {
      KeepsUnlessStruck(m, Tail(w), s - m.base);
    } else if s == End(w) && !Level(m) {
      LandedIsLive(m, Tail(w), s);
    } else if s >= End(w) {
      RestBehind(w, s);
    }
  }

  // ---- whole runs -----------------------------------------------------------

  /** What a snapshot makes of a job whose delete is durable: it returns exactly when the record was
      still there and the position lies past every delete that strikes it. */
  lemma RacedExactlyWhen(w: World, k: nat, front: nat, s: nat)
    requires Sound(w) && w.from <= k <= |w.log| && DeadFront(w.x.slots, front) && s <= w.x.head
    ensures Returns(Do(w, Snapshot(k, front)), s) <==>
            LiveAt(w.x, s) && !StruckIn(w.log[k..], s, w.x.slots[s - w.x.base])
  {
    RestoreIsExactlyWhen(w.x, front);
  }

  /** No snapshot's position lies past the delete of a job that is still there. */
  ghost predicate NoRaces(base: nat, steps: seq<Step>) {
    steps == [] ||
    var n := |steps| - 1;
    && NoRaces(base, steps[..n])
    && (steps[n].Snapshot? ==> Waits(Run(Start(base), steps[..n]), steps[n].k))
  }

  ghost predicate Waits(w: World, k: nat) {
    k <= |w.log| ==> forall s :: s in w.flying ==> DeleteSeqs({s}) in w.log[k..]
  }

  /** Jobs whose delete is durable are gone or about to be, and stay so after a crash. */
  ghost predicate Gone(w: World) {
    && (forall s :: s in w.logged && LiveAt(w.x, s) ==> s in w.flying)
    && (forall s :: s in w.logged ==> !Returns(w, s))
  }

  lemma OneMoreFrame(w: World, f: Frame, w1: World)
    requires Sound(w) && w1.image == w.image && w1.from == w.from && w1.log == w.log + [f]
    ensures forall s :: Returns(w1, s) ==> Returns(w, s)
    ensures f.DeleteSeqs? ==> forall s :: s in f.seqs ==> !Returns(w1, s)
  {
    var m := Restore(w.image);
    assert Tail(w1) == Tail(w) + [f];
    forall s: nat | LiveAt(m, s)
      ensures StruckIn(Tail(w1), s, m.slots[s - m.base]) <==>
              StruckIn(Tail(w), s, m.slots[s - m.base]) || Strikes(f, s, m.slots[s - m.base])
    {
      StruckSnoc(Tail(w), f, s, m.slots[s - m.base]);
    }
  }

  lemma CrashKeepsGone(w: World)
    requires Sound(w) && Gone(w)
    ensures Gone(Do(w, Crash))
  {
    var w1 := Do(w, Crash);
    forall s | s in w1.logged ensures !LiveAt(w1.x, s) && !Returns(w1, s) { BackExactlyWhen(w, s); }
  }

  lemma SnapshotKeepsGone(w: World, k: nat, front: nat)
    requires Sound(w) && Gone(w) && Waits(w, k)
    ensures Gone(Do(w, Snapshot(k, front)))
  {
    var w1 := Do(w, Snapshot(k, front));
    if w.from <= k <= |w.log| && DeadFront(w.x.slots, front) {
      RestoreIsExactlyWhen(w.x, front);
      forall s | s in w.logged && Returns(w1, s) ensures false {
        RacedFrame(w, k, s);
      }
    }
  }

  lemma RacedFrame(w: World, k: nat, s: nat)
    requires k <= |w.log| && LiveAt(w.x, s) && DeleteSeqs({s}) in w.log[k..]
    ensures StruckIn(w.log[k..], s, w.x.slots[s - w.x.base])
  {
    var i :| 0 <= i < |w.log[k..]| && w.log[k..][i] == DeleteSeqs({s});
    assert Strikes(w.log[k..][i], s, w.x.slots[s - w.x.base]);
  }

  lemma StepKeepsGone(w: World, step: Step)
    requires Sound(w) && Gone(w) && (step.Snapshot? ==> Waits(w, step.k))
    ensures Gone(Do(w, step))
  {
    var w1 := Do(w, step);
    match step
    case Write(rec) => OneMoreFrame(w, Append(w.x.base + |w.x.slots|, rec), w1);
    case Erase(before, filter) => OneMoreFrame(w, Delete(Selector(before, filter, Max(w.x.head + 1, 0))), w1);
    case LogAck(s) => if Present(w, s) { OneMoreFrame(w, DeleteSeqs({s}), w1); }
    case ApplyAck(_) =>
    case Snapshot(k, front) => SnapshotKeepsGone(w, k, front);
    case Crash => CrashKeepsGone(w);
  }

  /** In every run whose snapshots wait for the acks whose delete their position covers, across any
      number of crashes: a job whose delete is durable is not live once it was removed or a crash
      came, and no later crash brings it back; only another record may land on its seq. */
  lemma {:induction false} AckedStaysGone(base: nat, steps: seq<Step>)
    requires NoRaces(base, steps)
    ensures Gone(Run(Start(base), steps))
  {
    if steps != [] {
      var n := |steps| - 1;
      AckedStaysGone(base, steps[..n]);
      RunIsSound(base, steps[..n]);
      StepKeepsGone(Run(Start(base), steps[..n]), steps[n]);
    }
  }

  /** A job is written and acked, a snapshot is taken after its delete is synced and before it is
      applied, and the delete is applied: a crash brings the job back. */
  lemma AckedJobComesBack(a: Rec, w: World, w1: World, w2: World)
    requires w == Do(Do(Start(1), Write(a)), LogAck(1)) && w1 == Do(w, Snapshot(2, 0)) && w2 == Do(w1, ApplyAck(1))
    ensures 1 in w2.logged && !LiveAt(w2.x, 1) && LiveAt(Do(w2, Crash).x, 1)
  {
    var x := Index(1, [Live(a)], 1, 0);
    assert w.x == x && w.log == [Append(1, a), DeleteSeqs({1})] && w.logged == {1} && w.flying == {1};
    assert w.log[2..] == [];
    LoneIsSound(a, w);
    RacedExactlyWhen(w, 2, 0, 1);
    SoundStep(w, Snapshot(2, 0));
    SoundStep(w1, ApplyAck(1));
    assert Returns(w2, 1) <==> Returns(w1, 1);
    BackExactlyWhen(w2, 1);
  }

  lemma LoneIsSound(a: Rec, w: World)
    requires w == Do(Do(Start(1), Write(a)), LogAck(1))
    ensures Sound(w)
  {
    SoundStep(Start(1), Write(a));
    SoundStep(Do(Start(1), Write(a)), LogAck(1));
  }
}
