/** The durable leases log: replaying it after a crash rebuilds who holds what,
    although expiry and dead-lettering are never logged. */
module LeaseReplay {
  import opened Common
  import opened QueueModel
  import opened QueueRuns

  const CLAIMED: nat := 0
  const RELEASED: nat := 1
  const EXTENDED: nat := 2
  const ACKED: nat := 3

  /** One lease frame of the log; `event` is the discriminant byte. */
  datatype Frame = Frame(event: nat, s: nat, node: string, id: nat, deadline: int, deliveries: nat)

  predicate CurrentMatches(q: Queue, f: Frame) {
    f.s in q.leases && q.leases[f.s].id == f.id
  }

  /** Fold one replayed event into the projection. A released, extended or acked
      event acts only on the lease it names; an unknown event does nothing. */
  function Apply(q0: Queue, f: Frame): Queue {
    var q := if f.id >= q0.nextId then q0.(nextId := f.id + 1) else q0;
    if f.event == CLAIMED then
      q.(deliveries := q.deliveries[f.s := f.deliveries],
         leases := q.leases[f.s := Lease(f.node, f.id, f.deadline, None)],
         cursor := if f.s >= q.cursor then f.s + 1 else q.cursor)
    else if f.event == RELEASED && CurrentMatches(q, f) then
      PushReclaim(q.(leases := q.leases - {f.s}), f.s)
    else if f.event == EXTENDED && CurrentMatches(q, f) then
      q.(leases := q.leases[f.s := q.leases[f.s].(deadline := f.deadline)])
    else if f.event == ACKED && CurrentMatches(q, f) then
      q.(leases := q.leases - {f.s}, deliveries := q.deliveries - {f.s})
    else q
  }

  function Replay(q: Queue, log: seq<Frame>): Queue {
    if log == [] then q else Apply(Replay(q, log[..|log| - 1]), log[|log| - 1])
  }

  lemma {:induction false} ReplayConcat(q: Queue, a: seq<Frame>, b: seq<Frame>)
    ensures Replay(q, a + b) == Replay(Replay(q, a), b)
  {
    if b == [] {
      assert a + b == a;
    } else {
      ReplayConcat(q, a, b[..|b| - 1]);
      ConcatInit(a, b);
    }
  }

  lemma ReplayOne(q: Queue, frames: seq<Frame>)
    requires |frames| == 1
    ensures Replay(q, frames) == Apply(q, frames[0])
  {
    assert frames[..0] == [];
    assert Replay(q, frames[..0]) == q;
  }

  /** The frame acts on the lease it names, or claims under an id not logged before. */
  predicate Lands(q: Queue, f: Frame) {
    if f.event == CLAIMED then q.nextId <= f.id else RELEASED <= f.event <= ACKED && CurrentMatches(q, f)
  }

  /** Every frame lands in its turn. */
  ghost predicate Orderly(q: Queue, frames: seq<Frame>) {
    frames == [] ||
    (var n := |frames| - 1;
     Orderly(q, frames[..n]) && Lands(Replay(q, frames[..n]), frames[n]))
  }

  lemma {:induction false} OrderlyConcat(q: Queue, a: seq<Frame>, b: seq<Frame>)
    requires Orderly(q, a) && Orderly(Replay(q, a), b)
    ensures Orderly(q, a + b)
  {
    if b == [] {
      assert a + b == a;
    } else {
      OrderlyConcat(q, a, b[..|b| - 1]);
      ReplayConcat(q, a, b[..|b| - 1]);
      ConcatInit(a, b);
    }
  }

  lemma OrderlySnoc(q: Queue, frames: seq<Frame>, f: Frame)
    requires Orderly(q, frames) && Lands(Replay(q, frames), f)
    ensures Orderly(q, frames + [f])
  {
    assert (frames + [f])[..|frames|] == frames;
  }

  lemma OrderlyOne(q: Queue, frames: seq<Frame>)
    requires |frames| == 1 && Lands(q, frames[0])
    ensures Orderly(q, frames)
  {
    assert frames[..0] == [];
    assert Replay(q, frames[..0]) == q;
  }

  // ---- what the live queue logs ---------------------------------------------

  /** One frame per job a nack or extend acted on, in order. */
  function ActFrames(act: Act, node: string, acted: seq<(nat, nat)>): seq<Frame> {
    if acted == [] || act.Ack? then [] else
    ActFrames(act, node, acted[..|acted| - 1]) + [ActFrame(act, node, acted[|acted| - 1])]
  }

  function ActFrame(act: Act, node: string, p: (nat, nat)): Frame {
    if act.Extend? then Frame(EXTENDED, p.0, node, p.1, act.deadline, 0) else Frame(RELEASED, p.0, node, p.1, 0, 0)
  }

  /** What acting on one more job adds to the log and to the acks in flight. */
  lemma ActedSnoc(q: Queue, act: Act, node: string, acking: map<nat, nat>, acted: seq<(nat, nat)>, p: (nat, nat))
    ensures Replay(q, ActFrames(act, node, acted + [p])) ==
            if act.Ack? then Replay(q, ActFrames(act, node, acted))
                else Apply(Replay(q, ActFrames(act, node, acted)), ActFrame(act, node, p))
    ensures Acking(acking, acted + [p]) == Acking(acking, acted)[p.0 := p.1]
  {
    assert (acted + [p])[..|acted|] == acted;
    if !act.Ack? {
      var before := ActFrames(act, node, acted);
      assert ActFrames(act, node, acted + [p]) == before + [ActFrame(act, node, p)];
      assert (before + [ActFrame(act, node, p)])[..|before|] == before;
    }
  }

  /** Frames one `released` per lease of a closed connection, in any order. */
  ghost predicate ReleasesConn(q: Queue, conn: nat, frames: seq<Frame>) {
    && (forall i :: 0 <= i < |frames| ==>
          frames[i].s in ConnSeqs(q, conn) && frames[i].event == RELEASED && frames[i].id == q.leases[frames[i].s].id)
    && (forall s :: s in ConnSeqs(q, conn) ==> exists i :: 0 <= i < |frames| && frames[i].s == s)
    && (forall i, j :: 0 <= i < j < |frames| ==> frames[i].s != frames[j].s)
  }

  /** The frame of the lease a claim hands out, if it does. */
  ghost function Claimed(w: World, op: Op): seq<Frame> {
    var w1, n := Do(w, op), |w.issued|;
    if !op.ClaimOne? || |w1.issued| <= n then [] else
    var issue := w1.issued[n];
    [Frame(CLAIMED, issue.s, op.node, issue.id, op.deadline, Delivered(w1.q, issue.s))]
  }

  /** The frames of a run of claims, in order. */
  ghost function ClaimedAll(w: World, ops: seq<Op>): seq<Frame> {
    if ops == [] then [] else
    ClaimedAll(w, ops[..|ops| - 1]) + Claimed(Run(w, ops[..|ops| - 1]), ops[|ops| - 1])
  }

  /** What `op` appends to the leases log: expiry and dead-lettering append nothing, and
      an ack is logged once its durable delete landed. */
  ghost predicate Emits(w: World, op: Op, frames: seq<Frame>) {
    match op
    case ClaimOne(now, node, conn, deadline, dl) => frames == Claimed(w, op)
    case ActOn(now, node, act, items) => frames == ActFrames(act, node, ActAll(Sweep(w.q, now), node, act, items).acted)
    case Disconnect(conn) => ReleasesConn(w.q, conn, frames)
    case DeleteOk(s) => frames == if s in w.acking then [Frame(ACKED, s, "", w.acking[s], 0, 0)] else []
    case _ => frames == []
  }

  // ---- a live run beside its log --------------------------------------------

  /** A live run with the log it wrote, its clock, and the acked jobs whose delete has not landed
      and that were not claimed again since, each with the deadline of the acked lease. */
  datatype Life = Life(base: nat, w: World, log: seq<Frame>, t: int, ghosts: map<nat, int>)

  function Clock(t: int, op: Op): int {
    if op.SweepAt? || op.ClaimOne? || op.ActOn? then op.now else t
  }

  /** The deadlines of the leases an ack request takes off the queue. */
  function AckDeadlines(q: Queue, node: string, items: seq<Item>, ghosts: map<nat, int>): map<nat, int> {
    if items == [] then ghosts else
    var rest, item := items[..|items| - 1], items[|items| - 1];
    var q1, ghosts1 := ActAll(q, node, Ack, rest).q, AckDeadlines(q, node, rest, ghosts);
    if Held(q1, node, item) then ghosts1[item.s := q1.leases[item.s].deadline] else ghosts1
  }

  ghost function Advance(a: Life, op: Op, frames: seq<Frame>): Life {
    var w1 := Do(a.w, op);
    var ghosts :=
      if op.ActOn? && op.act.Ack? then AckDeadlines(Sweep(a.w.q, op.now), op.node, op.items, a.ghosts)
      else if op.ClaimOne? then a.ghosts - w1.q.leases.Keys
      else if op.DeleteOk? && op.s in a.w.acking then a.ghosts - {op.s}
      else a.ghosts;
    Life(a.base, w1, a.log + frames, Clock(a.t, op), ghosts)
  }

  ghost predicate Legal(a: Life, op: Op, frames: seq<Frame>) {
    a.t <= Clock(a.t, op) && Emits(a.w, op, frames)
  }

  ghost predicate LegalRun(base: nat, t: int, steps: seq<(Op, seq<Frame>)>)
    requires base >= 1
  {
    steps == [] ||
    (var n := |steps| - 1;
     LegalRun(base, t, steps[..n]) && Legal(LifeOf(base, t, steps[..n]), steps[n].0, steps[n].1))
  }

  ghost function LifeOf(base: nat, t: int, steps: seq<(Op, seq<Frame>)>): Life
    requires base >= 1
  {
    if steps == [] then Life(base, Start(base), [], t, map[]) else
    var n := |steps| - 1;
    Advance(LifeOf(base, t, steps[..n]), steps[n].0, steps[n].1)
  }

  function Recovered(a: Life): Queue {
    Replay(New(a.base), a.log)
  }

  predicate SameHolder(l: Lease, m: Lease) {
    l.node == m.node && l.id == m.id && l.deadline == m.deadline
  }

  /** How job `s` stands in the live queue and in the replayed one. */
  ghost predicate AgreesAt(w: World, r: Queue, t: int, ghosts: map<nat, int>, s: nat) {
    && (s in w.q.leases ==> s in r.leases && SameHolder(w.q.leases[s], r.leases[s]) && w.q.leases[s].id < w.q.nextId)
    && (s in r.leases && s !in w.q.leases ==> r.leases[s].deadline < t || s in ghosts)
    && (s in ghosts ==> s !in w.q.leases && s in r.leases && r.leases[s].deadline == ghosts[s])
    && (s in w.acking ==> s in ghosts && r.leases[s].id == w.acking[s] < w.q.nextId)
    && (s in w.jobs.live && s < w.q.cursor ==> s in r.leases || s in r.reclaim)
    && (s in w.q.deliveries ==> s in r.deliveries && r.deliveries[s] == w.q.deliveries[s])
    && (s in w.q.leases ==> s in w.q.deliveries) && (s in w.acking ==> s !in w.q.deliveries)
  }

  ghost predicate Agrees(w: World, r: Queue, t: int, ghosts: map<nat, int>) {
    && r.nextId == w.q.nextId
    && r.cursor <= w.q.cursor
    && forall s: nat :: AgreesAt(w, r, t, ghosts, s)
  }

  lemma SweepAgrees(w: World, r: Queue, t: int, ghosts: map<nat, int>, now: int)
    requires Agrees(w, r, t, ghosts) && t <= now
    ensures Agrees(w.(q := Sweep(w.q, now)), r, now, ghosts)
  {
    forall s: nat ensures AgreesAt(w.(q := Sweep(w.q, now)), r, now, ghosts, s) {
      assert AgreesAt(w, r, t, ghosts, s);
    }
  }

  /** The claim cursor passes no live job but the one it hands out. */
  lemma NextPasses(w: World)
    requires Conserved(w)
    ensures var (q1, next) := NextClaimable(w.q, w.jobs);
            && q1 == w.q.(reclaim := q1.reclaim, cursor := q1.cursor) && w.q.cursor <= q1.cursor
            && forall s :: s in w.jobs.live && w.q.cursor <= s < q1.cursor ==> next == Some(s)
  {
    var (q1, next) := NextClaimable(w.q, w.jobs);
    forall s | s in w.jobs.live && w.q.cursor <= s < q1.cursor ensures next == Some(s) {
      assert PlacedAt(w, s);
      assert s in FreshSeqs(w.q, w.jobs);
    }
  }

  /** Leasing the next job and logging it. */
  lemma LeaseAgrees(w: World, r: Queue, t: int, ghosts: map<nat, int>, op: Op, q1: Queue, m: nat)
    requires Agrees(w, r, t, ghosts) && op.ClaimOne? && w.q.cursor <= q1.cursor
    requires q1 == w.q.(reclaim := q1.reclaim, cursor := q1.cursor) && m !in w.acking && m < q1.cursor
    requires forall s :: s in w.jobs.live && w.q.cursor <= s < q1.cursor ==> s == m
    ensures var w1 :=
            w.(q := LeaseTo(q1, m, op.node, op.conn, op.deadline), issued := w.issued + [Issue(q1.nextId, m, op.node)]);
            var r1 := Apply(r, Frame(CLAIMED, m, op.node, q1.nextId, op.deadline, Delivered(w1.q, m)));
            Agrees(w1, r1, t, ghosts - w1.q.leases.Keys)
  {
    var w1 := w.(q := LeaseTo(q1, m, op.node, op.conn, op.deadline),
        issued := w.issued + [Issue(q1.nextId, m, op.node)]);
    var r1 := Apply(r, Frame(CLAIMED, m, op.node, q1.nextId, op.deadline, Delivered(w1.q, m)));
    forall s: nat ensures AgreesAt(w1, r1, t, ghosts - w1.q.leases.Keys, s) { assert AgreesAt(w, r, t, ghosts, s); }
  }

  /** Passing over jobs without leasing any. */
  lemma PassAgrees(w: World, r: Queue, t: int, ghosts: map<nat, int>, w1: World)
    requires Agrees(w, r, t, ghosts) && w1.q.leases == w.q.leases && w1.q.nextId == w.q.nextId
             && w.q.cursor <= w1.q.cursor
    requires w1.jobs == w.jobs && w1.acking == w.acking
    requires forall s :: s in w1.q.deliveries ==> s in w.q.deliveries && w1.q.deliveries[s] == w.q.deliveries[s]
    requires forall s :: s in w.q.leases && s in w.q.deliveries ==> s in w1.q.deliveries
    requires forall s :: s in w.jobs.live && w.q.cursor <= s ==> w1.q.cursor <= s
    ensures Agrees(w1, r, t, ghosts - w1.q.leases.Keys)
  {
    forall s: nat ensures AgreesAt(w1, r, t, ghosts - w1.q.leases.Keys, s) { assert AgreesAt(w, r, t, ghosts, s); }
  }

  lemma ClaimAgrees(w: World, r: Queue, t: int, ghosts: map<nat, int>, op: Op, frames: seq<Frame>)
    requires Conserved(w) && Agrees(w, r, t, ghosts) && op.ClaimOne? && t <= op.now && Emits(w, op, frames)
    ensures Agrees(Do(w, op), Replay(r, frames), op.now, ghosts - Do(w, op).q.leases.Keys) && Orderly(r, frames)
  {
    var w0 := w.(q := Sweep(w.q, op.now));
    SweepAgrees(w, r, t, ghosts, op.now);
    SweepKeepsConserved(w, op.now);
    NextKeepsConserved(w0);
    NextPasses(w0);
    var (q1, next) := NextClaimable(w0.q, w.jobs);
    if next.Some? && !Poison(q1, next.value, op.dl) {
      ReplayOne(r, frames);
      OrderlyOne(r, frames);
      assert PlacedAt(w0.(q := q1, diverted := w0.diverted + {next.value}), next.value);
      LeaseAgrees(w0, r, op.now, ghosts, op, q1, next.value);
    } else {
      PassAgrees(w0, r, op.now, ghosts, Do(w, op));
    }
  }

  lemma {:induction false} ActAgrees(w: World, r: Queue, t: int, ghosts: map<nat, int>, node: string, act: Act,
      items: seq<Item>)
    requires Conserved(w) && Agrees(w, r, t, ghosts)
    ensures var a := ActAll(w.q, node, act, items);
            var w1 := w.(q := a.q, acking := if act.Ack? then Acking(w.acking, a.acted) else w.acking);
            && Conserved(w1) && Orderly(r, ActFrames(act, node, a.acted))
            && Agrees(w1, Replay(r, ActFrames(act, node, a.acted)), t,
                 if act.Ack? then AckDeadlines(w.q, node, items, ghosts) else ghosts)
  {
    ActKeepsConserved(w, node, act, items);
    if items != [] {
      var rest, item := items[..|items| - 1], items[|items| - 1];
      ActAgrees(w, r, t, ghosts, node, act, rest);
      var a0, a := ActAll(w.q, node, act, rest), ActAll(w.q, node, act, items);
      if Held(a0.q, node, item) {
        var w0 := w.(q := a0.q, acking := if act.Ack? then Acking(w.acking, a0.acted) else w.acking);
        var ghosts0 := if act.Ack? then AckDeadlines(w.q, node, rest, ghosts) else ghosts;
        ActedSnoc(r, act, node, w.acking, a0.acted, (item.s, a0.q.leases[item.s].id));
        EffectAgrees(w0, Replay(r, ActFrames(act, node, a0.acted)), t, ghosts0, node, act, item.s);
        OrderlyActed(r, act, node, a0.acted, (item.s, a0.q.leases[item.s].id));
      }
    }
  }

  lemma OrderlyActed(r: Queue, act: Act, node: string, acted: seq<(nat, nat)>, p: (nat, nat))
    requires Orderly(r, ActFrames(act, node, acted))
    requires act.Ack? || Lands(Replay(r, ActFrames(act, node, acted)), ActFrame(act, node, p))
    ensures Orderly(r, ActFrames(act, node, acted + [p]))
  {
    assert (acted + [p])[..|acted|] == acted;
    if !act.Ack? { OrderlySnoc(r, ActFrames(act, node, acted), ActFrame(act, node, p)); }
  }

  /** One job acted on: the lease in the map and its log entry move together. */
  lemma EffectAgrees(w: World, r: Queue, t: int, ghosts: map<nat, int>, node: string, act: Act, s: nat)
    requires Conserved(w) && Agrees(w, r, t, ghosts) && s in w.q.leases
    ensures var id := w.q.leases[s].id;
            var w1 := w.(q := Effect(w.q, act, s), acking := if act.Ack? then w.acking[s := id] else w.acking);
            var r1 := if act.Ack? then r else Apply(r, ActFrame(act, node, (s, id)));
            && Agrees(w1, r1, t, if act.Ack? then ghosts[s := w.q.leases[s].deadline] else ghosts)
            && (act.Ack? || Lands(r, ActFrame(act, node, (s, id))))
  {
    var id := w.q.leases[s].id;
    var w1 := w.(q := Effect(w.q, act, s), acking := if act.Ack? then w.acking[s := id] else w.acking);
    var r1 := if act.Ack? then r else Apply(r, ActFrame(act, node, (s, id)));
    var ghosts1 := if act.Ack? then ghosts[s := w.q.leases[s].deadline] else ghosts;
    assert AgreesAt(w, r, t, ghosts, s) && PlacedAt(w, s);
    forall x: nat ensures AgreesAt(w1, r1, t, ghosts1, x) { assert AgreesAt(w, r, t, ghosts, x) && PlacedAt(w, x); }
  }

  function FrameSeqs(frames: seq<Frame>): set<nat> {
    if frames == [] then {} else FrameSeqs(frames[..|frames| - 1]) + {frames[|frames| - 1].s}
  }

  lemma {:induction false} InFrameSeqs(frames: seq<Frame>, i: nat)
    requires i < |frames|
    ensures frames[i].s in FrameSeqs(frames)
  {
    if i < |frames| - 1 { InFrameSeqs(frames[..|frames| - 1], i); }
  }

  lemma ReleaseLands(q: Queue, f: Frame)
    requires f.event == RELEASED && CurrentMatches(q, f) && f.id < q.nextId
    ensures Apply(q, f) == q.(leases := q.leases - {f.s}, reclaim := q.reclaim + {f.s}) && Lands(q, f)
  {
  }

  /** Replaying releases of current leases frees exactly those jobs. */
  lemma {:induction false} ReplayReleases(r: Queue, frames: seq<Frame>)
    requires forall i :: 0 <= i < |frames| ==>
               frames[i].event == RELEASED && CurrentMatches(r, frames[i]) && frames[i].id < r.nextId
    requires forall i, j :: 0 <= i < j < |frames| ==> frames[i].s != frames[j].s
    ensures Replay(r, frames) == r.(leases := r.leases - FrameSeqs(frames), reclaim := r.reclaim + FrameSeqs(frames))
    ensures Orderly(r, frames)
  {
    if frames == [] {
      assert r.leases - {} == r.leases && r.reclaim + {} == r.reclaim;
    } else {
      var rest, f := frames[..|frames| - 1], frames[|frames| - 1];
      ReplayReleases(r, rest);
      assert f == frames[|rest|];
      NotInFrameSeqs(rest, f.s);
      ReleaseLands(Replay(r, rest), f);
      assert (r.leases - FrameSeqs(rest)) - {f.s} == r.leases - FrameSeqs(frames);
      assert (r.reclaim + FrameSeqs(rest)) + {f.s} == r.reclaim + FrameSeqs(frames);
    }
  }

  lemma {:induction false} NotInFrameSeqs(frames: seq<Frame>, s: nat)
    requires forall i :: 0 <= i < |frames| ==> frames[i].s != s
    ensures s !in FrameSeqs(frames)
  {
    if frames != [] { NotInFrameSeqs(frames[..|frames| - 1], s); }
  }

  lemma DisconnectAgrees(w: World, r: Queue, t: int, ghosts: map<nat, int>, conn: nat, frames: seq<Frame>)
    requires Conserved(w) && Agrees(w, r, t, ghosts) && ReleasesConn(w.q, conn, frames)
    ensures Agrees(w.(q := Release(w.q, conn)), Replay(r, frames), t, ghosts) && Orderly(r, frames)
  {
    forall i | 0 <= i < |frames| ensures CurrentMatches(r, frames[i]) && frames[i].id < r.nextId {
      assert AgreesAt(w, r, t, ghosts, frames[i].s);
    }
    ReplayReleases(r, frames);
    forall s | s in ConnSeqs(w.q, conn) ensures s in FrameSeqs(frames) {
      var i :| 0 <= i < |frames| && frames[i].s == s;
      InFrameSeqs(frames, i);
    }
    OnlyFrameSeqs(frames, ConnSeqs(w.q, conn));
    assert FrameSeqs(frames) == ConnSeqs(w.q, conn);
    var w1, r1 := w.(q := Release(w.q, conn)), Replay(r, frames);
    forall s: nat ensures AgreesAt(w1, r1, t, ghosts, s) { assert AgreesAt(w, r, t, ghosts, s) && PlacedAt(w, s); }
  }

  lemma {:induction false} OnlyFrameSeqs(frames: seq<Frame>, seqs: set<nat>)
    requires forall i :: 0 <= i < |frames| ==> frames[i].s in seqs
    ensures FrameSeqs(frames) <= seqs
  {
    if frames != [] { OnlyFrameSeqs(frames[..|frames| - 1], seqs); }
  }

  /** A landed delete drops the acked lease from the log's view too. */
  lemma DeleteAgrees(w: World, r: Queue, t: int, ghosts: map<nat, int>, x: nat, frames: seq<Frame>)
    requires Conserved(w) && Agrees(w, r, t, ghosts) && Emits(w, DeleteOk(x), frames)
    ensures Agrees(Do(w, DeleteOk(x)), Replay(r, frames), t, if x in w.acking then ghosts - {x} else ghosts)
            && Orderly(r, frames)
  {
    var w1, r1 := Do(w, DeleteOk(x)), Replay(r, frames);
    var ghosts1 := if x in w.acking then ghosts - {x} else ghosts;
    assert AgreesAt(w, r, t, ghosts, x);
    if x in w.acking { ReplayOne(r, frames); OrderlyOne(r, frames); }
    forall s: nat ensures AgreesAt(w1, r1, t, ghosts1, s) { assert AgreesAt(w, r, t, ghosts, s) && PlacedAt(w, s); }
  }

  /** Steps that log nothing and move no lease. */
  lemma QuietAgrees(w: World, r: Queue, t: int, ghosts: map<nat, int>, op: Op)
    requires Conserved(w) && Agrees(w, r, t, ghosts)
    requires op.Append? || op.Remove? || op.DeleteFail? || op.DeadLetterRollback?
    ensures Agrees(Do(w, op), r, t, ghosts)
  {
    forall s: nat ensures AgreesAt(Do(w, op), r, t, ghosts, s) { assert AgreesAt(w, r, t, ghosts, s)
        && PlacedAt(w, s); }
  }

  lemma StepAgrees(a: Life, op: Op, frames: seq<Frame>)
    requires Conserved(a.w) && Agrees(a.w, Recovered(a), a.t, a.ghosts) && Legal(a, op, frames)
    requires Orderly(New(a.base), a.log)
    ensures var b := Advance(a, op, frames); Agrees(b.w, Recovered(b), b.t, b.ghosts) && Orderly(New(b.base), b.log)
  {
    var b, r := Advance(a, op, frames), Recovered(a);
    ReplayConcat(New(a.base), a.log, frames);
    match op {
      case ClaimOne(now, node, conn, deadline, dl) => ClaimAgrees(a.w, r, a.t, a.ghosts, op, frames);
      case ActOn(now, node, act, items) =>
        SweepAgrees(a.w, r, a.t, a.ghosts, now);
        SweepKeepsConserved(a.w, now);
        ActAgrees(a.w.(q := Sweep(a.w.q, now)), r, now, a.ghosts, node, act, items);
      case SweepAt(now) => SweepAgrees(a.w, r, a.t, a.ghosts, now);
      case Disconnect(conn) => DisconnectAgrees(a.w, r, a.t, a.ghosts, conn, frames);
      case DeleteOk(x) => DeleteAgrees(a.w, r, a.t, a.ghosts, x, frames);
      case _ => QuietAgrees(a.w, r, a.t, a.ghosts, op);
    }
    OrderlyConcat(New(a.base), a.log, frames);
  }

  lemma {:induction false} RunAgrees(base: nat, t: int, steps: seq<(Op, seq<Frame>)>)
    requires base >= 1 && LegalRun(base, t, steps)
    ensures var a := LifeOf(base, t, steps);
            Conserved(a.w) && Agrees(a.w, Recovered(a), a.t, a.ghosts) && Orderly(New(a.base), a.log)
  {
    if steps != [] {
      var n := |steps| - 1;
      RunAgrees(base, t, steps[..n]);
      var a := LifeOf(base, t, steps[..n]);
      StepKeepsConserved(a.w, steps[n].0);
      StepAgrees(a, steps[n].0, steps[n].1);
    }
  }

  // ---- the theorem ----------------------------------------------------------

  /** Who holds `s`, under which lease id and until when. */
  function Holder(q: Queue, s: nat): Option<(string, nat, int)> {
    if s in q.leases then Some((q.leases[s].node, q.leases[s].id, q.leases[s].deadline)) else None
  }

  /** An acked lease that is still running, and whose delete is in flight or failed. */
  predicate GhostLease(ghosts: map<nat, int>, s: nat, now: int) { s in ghosts && now <= ghosts[s] }

  lemma HolderAgrees(w: World, r: Queue, t: int, ghosts: map<nat, int>, s: nat, now: int)
    requires Conserved(w) && Agrees(w, r, t, ghosts) && t <= now
    ensures Holder(Sweep(r, now), s) == Holder(Sweep(w.q, now), s) <==> !GhostLease(ghosts, s, now)
    ensures s in w.jobs.live && s < r.cursor ==> s in Sweep(r, now).leases || s in Sweep(r, now).reclaim
  {
    assert AgreesAt(w, r, t, ghosts, s) && PlacedAt(w, s);
  }

  /** Replaying the log and sweeping at any later time: a job has the holder, lease id and
      deadline of the live queue swept at that time, exactly unless it was acked under a lease
      that would still run, its delete is in flight or failed, and nobody claimed it since; no
      live job below the recovered cursor is outside leases and freelist; and the id allocator
      is above every logged id. */
  lemma ReplayRebuildsLeases(base: nat, t: int, steps: seq<(Op, seq<Frame>)>, now: int)
    requires base >= 1 && LegalRun(base, t, steps)
    requires LifeOf(base, t, steps).t <= now
    ensures var a := LifeOf(base, t, steps);
            var r := Recovered(a);
            && (forall s: nat ::
                  Holder(Sweep(r, now), s) == Holder(Sweep(a.w.q, now), s) <==> !GhostLease(a.ghosts, s, now))
            && (forall s :: s in a.w.q.deliveries ==> Delivered(r, s) == a.w.q.deliveries[s])
            && (forall s :: s in a.w.q.leases ==> s in a.w.q.deliveries)
            && (forall s :: s in a.w.jobs.live && s < r.cursor ==>
                 s in Sweep(r, now).leases || s in Sweep(r, now).reclaim)
            && (forall i :: 0 <= i < |a.log| ==> a.log[i].id < r.nextId)
  {
    var a := LifeOf(base, t, steps);
    RunAgrees(base, t, steps);
    IdsBelowAllocator(New(a.base), a.log);
    ghost var r := Recovered(a);
    forall s: nat { HolderAgrees(a.w, r, a.t, a.ghosts, s, now); }
    forall s | s in a.w.q.deliveries ensures Delivered(r, s) == a.w.q.deliveries[s] {
      assert AgreesAt(a.w, r, a.t, a.ghosts, s);
    }
    forall s | s in a.w.q.leases ensures s in a.w.q.deliveries { assert AgreesAt(a.w, r, a.t, a.ghosts, s); }
  }

  /** The recovered cursor is one past the highest job ever claimed, so that no job that was claimed
      counts as fresh. */
  lemma {:induction false} CursorIsPastClaims(base: nat, log: seq<Frame>)
    ensures var r := Replay(New(base), log);
            && base <= r.cursor && (forall i :: 0 <= i < |log| && log[i].event == CLAIMED ==> log[i].s < r.cursor)
            && (r.cursor > base ==> exists i :: 0 <= i < |log| && log[i].event == CLAIMED && log[i].s == r.cursor - 1)
  {
    if log != [] {
      var n := |log| - 1;
      CursorIsPastClaims(base, log[..n]);
      var q, r := Replay(New(base), log[..n]), Replay(New(base), log);
      if r.cursor > base {
        if r.cursor == q.cursor {
          var i :| 0 <= i < n && log[..n][i].event == CLAIMED && log[..n][i].s == q.cursor - 1;
          assert log[i].event == CLAIMED;
        } else {
          assert log[n].event == CLAIMED;
        }
      }
    }
  }

  /** Leases and freelist lie below the cursor, and counts are kept of jobs on either only. */
  ghost predicate Tracked(q: Queue, s: nat) {
    && (s in q.leases || s in q.reclaim ==> s < q.cursor)
    && (s in q.deliveries ==> s in q.leases || s in q.reclaim)
  }

  lemma StaysTracked(q: Queue, f: Frame, s: nat)
    requires Tracked(q, s)
    ensures Tracked(Apply(q, f), s)
  {
  }

  lemma {:induction false} RecoveredIsTracked(base: nat, log: seq<Frame>, s: nat)
    ensures Tracked(Replay(New(base), log), s)
  {
    if log != [] {
      var n := |log| - 1;
      RecoveredIsTracked(base, log[..n], s);
      StaysTracked(Replay(New(base), log[..n]), log[n], s);
    }
  }

  lemma {:induction false} IdsBelowAllocator(q: Queue, log: seq<Frame>)
    ensures Replay(q, log).nextId >= q.nextId
    ensures forall i :: 0 <= i < |log| ==> log[i].id < Replay(q, log).nextId
  {
    if log != [] { IdsBelowAllocator(q, log[..|log| - 1]); }
  }
}
