/** The leases log when it is not written in lock order: every operation logs its frames after
    it has dropped the queue lock (`log_lease_event` in `src/engine/queue.rs`), so frames of
    concurrent operations reach the log in any order. */
module LeaseLogOrder {
  import opened Common
  import opened QueueModel
  import opened QueueRuns
  import opened LeaseReplay

  /** A live run; what reached the log, in log order; and what is still to be logged.
      `life.log` holds all frames in the order they were emitted. */
  datatype Split = Split(life: Life, log: seq<Frame>, unlogged: seq<Frame>)

  datatype Event = Act(op: Op, frames: seq<Frame>) | Log(i: nat)

  function Without(frames: seq<Frame>, i: nat): seq<Frame>
    requires i < |frames|
  {
    frames[..i] + frames[i + 1..]
  }

  ghost function Happen(x: Split, e: Event): Split {
    match e
    case Act(op, frames) => Split(Advance(x.life, op, frames), x.log, x.unlogged + frames)
    case Log(i) =>
      if i < |x.unlogged| then Split(x.life, x.log + [x.unlogged[i]], Without(x.unlogged, i)) else x
  }

  ghost function SplitOf(base: nat, t: int, events: seq<Event>): Split
    requires base >= 1
  {
    if events == [] then Split(Life(base, Start(base), [], t, map[]), [], []) else
    Happen(SplitOf(base, t, events[..|events| - 1]), events[|events| - 1])
  }

  ghost predicate LegalEvents(base: nat, t: int, events: seq<Event>)
    requires base >= 1
  {
    events == [] ||
    (var n := |events| - 1;
     && LegalEvents(base, t, events[..n])
     && (events[n].Act? ==> Legal(SplitOf(base, t, events[..n]).life, events[n].op, events[n].frames)))
  }

  // ---- only a job's own frames move its lease -------------------------------

  /** The frames of job `s`, in order. */
  function Own(log: seq<Frame>, s: nat): seq<Frame> {
    if log == [] then [] else
    Own(log[..|log| - 1], s) + (if log[|log| - 1].s == s then [log[|log| - 1]] else [])
  }

  function LeaseAt(q: Queue, s: nat): Option<Lease> { if s in q.leases then Some(q.leases[s]) else None }

  predicate Closes(f: Frame, id: nat) { (f.event == RELEASED || f.event == ACKED) && f.id == id }

  /** What one of its own frames does to the lease of a job. */
  function Move(l: Option<Lease>, f: Frame): Option<Lease> {
    if f.event == CLAIMED then Some(Lease(f.node, f.id, f.deadline, None))
    else if l.None? || l.value.id != f.id then l
    else if f.event == EXTENDED then Some(l.value.(deadline := f.deadline))
    else if Closes(f, f.id) then None
    else l
  }

  function Fold(own: seq<Frame>): Option<Lease> {
    if own == [] then None else Move(Fold(own[..|own| - 1]), own[|own| - 1])
  }

  lemma ApplyMoves(q: Queue, f: Frame, s: nat)
    ensures LeaseAt(Apply(q, f), s) == if f.s == s then Move(LeaseAt(q, s), f) else LeaseAt(q, s)
  {
  }

  lemma FoldSnoc(own: seq<Frame>, f: Frame)
    ensures Fold(own + [f]) == Move(Fold(own), f)
  {
    assert (own + [f])[..|own|] == own;
  }

  /** Frames of other jobs commute with those of `s`: its recovered lease is a function of
      its own frames. */
  lemma {:induction false} OwnFramesDecide(base: nat, log: seq<Frame>, s: nat)
    ensures LeaseAt(Replay(New(base), log), s) == Fold(Own(log, s))
  {
    if log != [] {
      var n := |log| - 1;
      OwnFramesDecide(base, log[..n], s);
      ApplyMoves(Replay(New(base), log[..n]), log[n], s);
      if log[n].s == s {
        FoldSnoc(Own(log[..n], s), log[n]);
      } else {
        assert Own(log, s) == Own(log[..n], s);
      }
    }
  }

  /** The place of the last claim, or -1. */
  function LastClaim(own: seq<Frame>): (c: int)
    ensures -1 <= c < |own| && (c >= 0 ==> own[c].event == CLAIMED)
    ensures forall i :: c < i < |own| ==> own[i].event != CLAIMED
  {
    if own == [] then -1 else
    if own[|own| - 1].event == CLAIMED then |own| - 1 else LastClaim(own[..|own| - 1])
  }

  /** The claim at `c` is closed by a later frame. */
  ghost predicate ClosedAfter(own: seq<Frame>, c: nat)
    requires c < |own|
  {
    exists i :: c < i < |own| && Closes(own[i], own[c].id)
  }

  /** The deadline of the claim at `c`, as last extended behind it. */
  function Until(own: seq<Frame>, c: nat): int
    requires c < |own|
  {
    var f := own[|own| - 1];
    if c == |own| - 1 then f.deadline
    else if f.event == EXTENDED && f.id == own[c].id then f.deadline
    else Until(own[..|own| - 1], c)
  }

  /** The lease a log leaves is that of the last claim in it, unless its close stands behind
      it, with the last extension behind it. */
  lemma {:induction false} LastClaimDecides(own: seq<Frame>)
    ensures var c := LastClaim(own);
            Fold(own) == if c < 0 || ClosedAfter(own, c) then None
                         else Some(Lease(own[c].node, own[c].id, Until(own, c), None))
  {
    if own != [] {
      var rest, f, c := own[..|own| - 1], own[|own| - 1], LastClaim(own);
      LastClaimDecides(rest);
      if 0 <= c < |rest| {
        assert LastClaim(rest) == c && f == own[|rest|];
        if ClosedAfter(rest, c) {
          var i :| c < i < |rest| && Closes(rest[i], rest[c].id);
          assert Closes(own[i], own[c].id);
        } else if ClosedAfter(own, c) {
          var i :| c < i < |own| && Closes(own[i], own[c].id);
          assert i == |rest|;
        }
      }
    }
  }

  // ---- frames as they were emitted ------------------------------------------

  /** A job's frames in the order they were emitted: claims under rising ids, and between two
      claims only frames of the lease they are behind. */
  ghost predicate Blocks(own: seq<Frame>) {
    own == [] ||
    (var rest, f := own[..|own| - 1], own[|own| - 1];
     && Blocks(rest)
     && if f.event == CLAIMED then forall i :: 0 <= i < |rest| ==> rest[i].id < f.id
        else Fold(rest).Some? && Fold(rest).value.id == f.id)
  }

  lemma {:induction false} OwnOnly(log: seq<Frame>, s: nat)
    ensures forall i :: 0 <= i < |Own(log, s)| ==> Own(log, s)[i] in log && Own(log, s)[i].s == s
  {
    if log != [] {
      OwnOnly(log[..|log| - 1], s);
      assert forall f :: f in log[..|log| - 1] ==> f in log;
    }
  }

  lemma {:induction false} OrderlyIsBlocks(base: nat, log: seq<Frame>, s: nat)
    requires Orderly(New(base), log)
    ensures Blocks(Own(log, s))
  {
    if log != [] {
      var n := |log| - 1;
      var rest, f := Own(log[..n], s), log[n];
      OrderlyIsBlocks(base, log[..n], s);
      if f.s == s {
        assert (rest + [f])[..|rest|] == rest;
        OwnFramesDecide(base, log[..n], s);
        IdsBelowAllocator(New(base), log[..n]);
        OwnOnly(log[..n], s);
      } else {
        assert Own(log, s) == rest;
      }
    }
  }

  /** The last claim has the highest id, and no frame before it carries that id. */
  lemma {:induction false} LastClaimIsHighest(own: seq<Frame>)
    requires Blocks(own)
    ensures LastClaim(own) < 0 ==> own == []
    ensures var c := LastClaim(own);
            c >= 0 ==> forall i :: 0 <= i < |own| ==> own[i].id <= own[c].id && (i < c ==> own[i].id < own[c].id)
  {
    if own != [] {
      var rest := own[..|own| - 1];
      LastClaimIsHighest(rest);
      LastClaimDecides(rest);
    }
  }

  // ---- the same frames in another order -------------------------------------

  lemma {:induction false} OwnCount(log: seq<Frame>, s: nat, f: Frame)
    ensures multiset(Own(log, s))[f] == if f.s == s then multiset(log)[f] else 0
  {
    if log != [] {
      var n := |log| - 1;
      OwnCount(log[..n], s, f);
      assert log == log[..n] + [log[n]];
    }
  }

  /** The lease the frames leave is still running at `now`. */
  ghost predicate Runs(own: seq<Frame>, now: int) {
    var c := LastClaim(own);
    c >= 0 && !ClosedAfter(own, c) && now <= Until(own, c)
  }

  /** Both orders leave the same running lease, or neither leaves one: the last claim logged is
      the last one made, and no extension behind it overtook a later one. */
  ghost predicate SameLease(emitted: seq<Frame>, logged: seq<Frame>, now: int) {
    var c, d := LastClaim(emitted), LastClaim(logged);
    && (Runs(emitted, now) <==> Runs(logged, now))
    && (Runs(emitted, now) ==> emitted[c].id == logged[d].id && Until(emitted, c) == Until(logged, d))
  }

  /** Who holds the job once the lease, if it has run out, is swept. */
  function Effective(l: Option<Lease>, now: int): Option<(string, nat, int)> {
    if l.None? || now > l.value.deadline then None else Some((l.value.node, l.value.id, l.value.deadline))
  }

  lemma HolderIsEffective(q: Queue, s: nat, now: int)
    ensures Holder(Sweep(q, now), s) == Effective(LeaseAt(q, s), now)
  {
  }

  lemma OrderDecides(emitted: seq<Frame>, logged: seq<Frame>, now: int)
    requires Blocks(emitted) && multiset(emitted) == multiset(logged)
    ensures Effective(Fold(emitted), now) == Effective(Fold(logged), now) <==> SameLease(emitted, logged, now)
    ensures Effective(Fold(logged), now) == None <==> !Runs(logged, now)
  {
    var c, d := LastClaim(emitted), LastClaim(logged);
    LastClaimDecides(emitted);
    LastClaimDecides(logged);
    LastClaimIsHighest(emitted);
    if c >= 0 && d >= 0 && emitted[c].id == logged[d].id {
      assert logged[d] in multiset(logged);
      assert logged[d] in emitted;
      var i :| 0 <= i < |emitted| && emitted[i] == logged[d];
      assert i == c;
    }
  }

  // ---- which inversions matter ----------------------------------------------

  /** The extensions of lease `id`, in order. */
  function Extensions(own: seq<Frame>, id: nat): seq<Frame> {
    if own == [] then [] else
    var f := own[|own| - 1];
    Extensions(own[..|own| - 1], id) + (if f.event == EXTENDED && f.id == id then [f] else [])
  }

  /** The claim at `p` is the last one, and no frame of its lease stands before it. */
  ghost predicate Heads(own: seq<Frame>, p: nat) {
    && p < |own| && own[p].event == CLAIMED
    && (forall i :: p < i < |own| ==> own[i].event != CLAIMED) && (forall i :: 0 <= i < p ==> own[i].id != own[p].id)
  }

  lemma {:induction false} HeadHasNoExtensions(own: seq<Frame>, id: nat)
    requires forall i :: 0 <= i < |own| ==> own[i].id != id || own[i].event != EXTENDED
    ensures Extensions(own, id) == []
  {
    if own != [] { HeadHasNoExtensions(own[..|own| - 1], id); }
  }

  /** Behind such a claim the last extension decides the deadline. */
  lemma {:induction false} UntilIsLastExtension(own: seq<Frame>, p: nat)
    requires Heads(own, p)
    ensures LastClaim(own) == p
    ensures var e := Extensions(own, own[p].id);
            Until(own, p) == if e == [] then own[p].deadline else e[|e| - 1].deadline
  {
    var rest := own[..|own| - 1];
    if p < |rest| {
      UntilIsLastExtension(rest, p);
    } else {
      HeadHasNoExtensions(rest, own[p].id);
    }
  }

  /** In the log the newest claim, at `p`, comes behind all older ones and before every close and
      extension of its lease, and those extensions keep their order. */
  ghost predicate UnmovedAt(emitted: seq<Frame>, logged: seq<Frame>, p: nat) {
    var c := LastClaim(emitted);
    && c >= 0 && Heads(logged, p) && logged[p] == emitted[c]
    && Extensions(logged, emitted[c].id) == Extensions(emitted, emitted[c].id)
  }

  ghost predicate Unmoved(emitted: seq<Frame>, logged: seq<Frame>) {
    emitted == [] || exists p: nat :: UnmovedAt(emitted, logged, p)
  }

  lemma ClosedInBoth(a: seq<Frame>, c: nat, b: seq<Frame>, d: nat)
    requires multiset(a) == multiset(b) && Heads(a, c) && Heads(b, d) && a[c] == b[d] && ClosedAfter(a, c)
    ensures ClosedAfter(b, d)
  {
    var i :| c < i < |a| && Closes(a[i], a[c].id);
    assert a[i] in multiset(b);
    assert a[i] in b;
    var k :| 0 <= k < |b| && b[k] == a[i];
    assert Closes(b[k], b[d].id) && k != d && d <= k;
  }

  lemma EmittedHeads(emitted: seq<Frame>)
    requires Blocks(emitted) && emitted != []
    ensures LastClaim(emitted) >= 0 && Heads(emitted, LastClaim(emitted))
  {
    LastClaimIsHighest(emitted);
  }

  lemma UnmovedFoldsSame(emitted: seq<Frame>, logged: seq<Frame>, p: nat)
    requires Blocks(emitted) && emitted != [] && multiset(emitted) == multiset(logged) && UnmovedAt(emitted, logged, p)
    ensures Fold(emitted) == Fold(logged)
  {
    var c := LastClaim(emitted);
    LastClaimDecides(emitted);
    LastClaimDecides(logged);
    EmittedHeads(emitted);
    UntilIsLastExtension(emitted, c);
    UntilIsLastExtension(logged, p);
    if ClosedAfter(emitted, c) {
      ClosedInBoth(emitted, c, logged, p);
    } else if ClosedAfter(logged, p) {
      ClosedInBoth(logged, p, emitted, c);
    }
  }

  /** No other inversion matters: if an older claim is not logged behind the newest one, neither a
      close nor an extension of the newest before it, and no two of its extensions are swapped,
      then the log leaves the same lease at every time. */
  lemma OnlyTheseInversionsMatter(emitted: seq<Frame>, logged: seq<Frame>, now: int)
    requires Blocks(emitted) && multiset(emitted) == multiset(logged) && Unmoved(emitted, logged)
    ensures Fold(emitted) == Fold(logged) && SameLease(emitted, logged, now)
  {
    if emitted == [] {
      assert |multiset(logged)| == 0;
    } else {
      var p: nat :| UnmovedAt(emitted, logged, p);
      UnmovedFoldsSame(emitted, logged, p);
    }
    OrderDecides(emitted, logged, now);
  }

  /** An older claim logged behind the newest one does matter while the newest lease runs. */
  lemma OlderClaimLoggedLast(emitted: seq<Frame>, logged: seq<Frame>, now: int)
    requires Blocks(emitted) && Runs(emitted, now)
    requires LastClaim(logged) >= 0 && logged[LastClaim(logged)].id != emitted[LastClaim(emitted)].id
    ensures !SameLease(emitted, logged, now)
  {
  }

  // ---- every run ------------------------------------------------------------

  ghost predicate SplitInv(x: Split) {
    && Conserved(x.life.w) && Agrees(x.life.w, Recovered(x.life), x.life.t, x.life.ghosts)
    && Orderly(New(x.life.base), x.life.log)
    && multiset(x.life.log) == multiset(x.log) + multiset(x.unlogged)
  }

  lemma WithoutOne(frames: seq<Frame>, i: nat)
    requires i < |frames|
    ensures multiset(frames) == multiset(Without(frames, i)) + multiset{frames[i]}
  {
    assert frames == frames[..i] + [frames[i]] + frames[i + 1..];
  }

  lemma {:induction false} SplitKeepsInv(base: nat, t: int, events: seq<Event>)
    requires base >= 1 && LegalEvents(base, t, events)
    ensures SplitInv(SplitOf(base, t, events)) && SplitOf(base, t, events).life.base == base
  {
    if events != [] {
      var n := |events| - 1;
      SplitKeepsInv(base, t, events[..n]);
      var x := SplitOf(base, t, events[..n]);
      match events[n] {
        case Act(op, frames) =>
          StepKeepsConserved(x.life.w, op);
          StepAgrees(x.life, op, frames);
        case Log(i) =>
          if i < |x.unlogged| { WithoutOne(x.unlogged, i); }
      }
    } else {
      RunAgrees(base, t, []);
    }
  }

  /** Recovery from the log as it was written, swept at any later time. If all frames of `s`
      are logged, `s` has the live holder exactly if both orders of its own frames leave the
      same running lease (or, for an acked job whose delete did not land, if the log leaves
      none); the frames of other jobs do not matter. */
  lemma ReorderedRebuildsExactlyWhen(base: nat, t: int, events: seq<Event>, now: int, s: nat)
    requires base >= 1 && LegalEvents(base, t, events) && SplitOf(base, t, events).life.t <= now
    requires Own(SplitOf(base, t, events).unlogged, s) == []
    ensures var x := SplitOf(base, t, events);
            var emitted, logged := Own(x.life.log, s), Own(x.log, s);
            Holder(Sweep(Replay(New(base), x.log), now), s) == Holder(Sweep(x.life.w.q, now), s) <==>
            if GhostLease(x.life.ghosts, s, now) then !Runs(logged, now) else SameLease(emitted, logged, now)
  {
    var x := SplitOf(base, t, events);
    var emitted, logged := Own(x.life.log, s), Own(x.log, s);
    SplitKeepsInv(base, t, events);
    OrderlyIsBlocks(base, x.life.log, s);
    forall f ensures multiset(emitted)[f] == multiset(logged)[f] {
      OwnCount(x.life.log, s, f);
      OwnCount(x.log, s, f);
      OwnCount(x.unlogged, s, f);
    }
    assert multiset(emitted) == multiset(logged);
    OrderDecides(emitted, logged, now);
    OwnFramesDecide(base, x.life.log, s);
    OwnFramesDecide(base, x.log, s);
    HolderIsEffective(Replay(New(base), x.log), s, now);
    HolderIsEffective(Recovered(x.life), s, now);
    HolderAgrees(x.life.w, Recovered(x.life), x.life.t, x.life.ghosts, s, now);
    assert AgreesAt(x.life.w, Recovered(x.life), x.life.t, x.life.ghosts, s);
  }

  /** Logging a job's own frames in the order they were emitted is enough. */
  lemma OwnOrderIsEnough(base: nat, t: int, events: seq<Event>, now: int, s: nat)
    requires base >= 1 && LegalEvents(base, t, events) && SplitOf(base, t, events).life.t <= now
    ensures var x := SplitOf(base, t, events);
            Own(x.log, s) == Own(x.life.log, s) ==>
              (Holder(Sweep(Replay(New(base), x.log), now), s) == Holder(Sweep(x.life.w.q, now), s) <==>
               !GhostLease(x.life.ghosts, s, now))
  {
    var x := SplitOf(base, t, events);
    SplitKeepsInv(base, t, events);
    OwnFramesDecide(base, x.life.log, s);
    OwnFramesDecide(base, x.log, s);
    HolderIsEffective(Replay(New(base), x.log), s, now);
    HolderIsEffective(Recovered(x.life), s, now);
    HolderAgrees(x.life.w, Recovered(x.life), x.life.t, x.life.ghosts, s, now);
  }

  /** The allocator recovers to one above the highest logged id, in whatever order. */
  lemma {:induction false} AllocatorIsAboveIds(base: nat, log: seq<Frame>)
    ensures var next := Replay(New(base), log).nextId;
            next == 1 || exists i :: 0 <= i < |log| && next == log[i].id + 1
  {
    if log != [] {
      var n := |log| - 1;
      AllocatorIsAboveIds(base, log[..n]);
      var next := Replay(New(base), log[..n]).nextId;
      if log[n].id < next != 1 {
        var i :| 0 <= i < n && next == log[..n][i].id + 1;
        assert next == log[i].id + 1;
      }
    }
  }

  lemma AllocatorIgnoresOrder(base: nat, a: seq<Frame>, b: seq<Frame>)
    requires multiset(a) == multiset(b)
    ensures Replay(New(base), a).nextId == Replay(New(base), b).nextId
  {
    AllocatorBounds(base, a, b);
    AllocatorBounds(base, b, a);
  }

  lemma AllocatorBounds(base: nat, a: seq<Frame>, b: seq<Frame>)
    requires multiset(a) == multiset(b)
    ensures Replay(New(base), a).nextId <= Replay(New(base), b).nextId
  {
    AllocatorIsAboveIds(base, a);
    IdsBelowAllocator(New(base), b);
    var next := Replay(New(base), a).nextId;
    if next != 1 {
      var i :| 0 <= i < |a| && next == a[i].id + 1;
      assert a[i] in multiset(a);
      assert a[i] in b;
    }
  }

  // ---- a run that recovers a lease nobody holds -----------------------------

  const CLAIM: Op := ClaimOne(0, "w", Some(7), 50, DeadLetterPolicy(0, false))
  const CLAIM_FRAME: Frame := Frame(CLAIMED, 1, "w", 1, 50, 1)
  const RELEASE_FRAME: Frame := Frame(RELEASED, 1, "w", 1, 0, 0)

  /** A worker claims job 1 over a connection that closes at once. */
  const ACTS: seq<Event> := [Act(Append(1, {}), []), Act(CLAIM, [CLAIM_FRAME]), Act(Disconnect(7), [RELEASE_FRAME])]

  /** The release reaches the log before the claim. */
  const RACE: seq<Event> := ACTS + [Log(1), Log(0)]

  lemma FirstClaim()
    ensures var w := Do(Do(Start(1), Append(1, {})), CLAIM);
            && w.q.leases == map[1 := Lease("w", 1, 50, Some(7))] && w.issued == [Issue(1, 1, "w")]
            && Delivered(w.q, 1) == 1
  {
    var w := Do(Start(1), Append(1, {}));
    Conservation(1, []);
    StepKeepsConserved(Start(1), Append(1, {}));
    assert w.jobs.live == {1} && Claimable(w) == {1};
    ClaimTakesMinimum(w, CLAIM);
  }

  lemma OneMoreEvent(t: int, events: seq<Event>, e: Event)
    requires LegalEvents(1, t, events) && (e.Act? ==> Legal(SplitOf(1, t, events).life, e.op, e.frames))
    ensures LegalEvents(1, t, events + [e]) && SplitOf(1, t, events + [e]) == Happen(SplitOf(1, t, events), e)
  {
    assert (events + [e])[..|events|] == events;
  }

  /** The three operations, none of whose frames is logged yet. */
  lemma ActsAreLegal()
    ensures LegalEvents(1, 0, ACTS)
    ensures var x := SplitOf(1, 0, ACTS);
            x.log == [] && x.unlogged == [CLAIM_FRAME, RELEASE_FRAME] && x.life.w.q.leases == map[] && x.life.t == 0
  {
    FirstClaim();
    var x0 := SplitOf(1, 0, []);
    OneMoreEvent(0, [], ACTS[0]);
    var x1 := Happen(x0, ACTS[0]);
    OneMoreEvent(0, [ACTS[0]], ACTS[1]);
    var x2 := Happen(x1, ACTS[1]);
    assert ConnSeqs(x2.life.w.q, 7) == {1};
    assert [RELEASE_FRAME][0].s == 1;
    assert ReleasesConn(x2.life.w.q, 7, [RELEASE_FRAME]);
    assert [] + [ACTS[0]] == [ACTS[0]] && [ACTS[0]] + [ACTS[1]] == [ACTS[0], ACTS[1]];
    OneMoreEvent(0, [ACTS[0], ACTS[1]], ACTS[2]);
    assert [ACTS[0], ACTS[1]] + [ACTS[2]] == ACTS;
  }

  lemma ReversedReplay()
    ensures LeaseAt(Replay(New(1), [RELEASE_FRAME, CLAIM_FRAME]), 1) == Some(Lease("w", 1, 50, None))
  {
    assert [RELEASE_FRAME, CLAIM_FRAME][..1] == [RELEASE_FRAME];
    ApplyMoves(Replay(New(1), [RELEASE_FRAME]), CLAIM_FRAME, 1);
  }

  /** The run: job 1 is free again, and recovery hands it back to the closed connection's worker. */
  lemma ReleaseLoggedFirst()
    ensures LegalEvents(1, 0, RACE)
    ensures var x := SplitOf(1, 0, RACE);
            && x.unlogged == [] && Holder(Sweep(x.life.w.q, 0), 1) == None
            && Holder(Sweep(Replay(New(1), x.log), 0), 1) == Some(("w", 1, 50))
  {
    ActsAreLegal();
    OneMoreEvent(0, ACTS, Log(1));
    OneMoreEvent(0, ACTS + [Log(1)], Log(0));
    assert ACTS + [Log(1)] + [Log(0)] == RACE;
    var x := SplitOf(1, 0, RACE);
    assert x.log == [RELEASE_FRAME, CLAIM_FRAME];
    ReversedReplay();
    HolderIsEffective(Replay(New(1), x.log), 1, 0);
    HolderIsEffective(x.life.w.q, 1, 0);
  }
}
