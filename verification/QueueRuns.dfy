/** Whole runs of a queue: every critical section of `src/engine/queue.rs` is one
    step, and the durable deletes of acked and dead-lettered jobs, which happen
    after the queue lock is dropped, are separate steps that other operations may
    interleave with. */
module QueueRuns {
  import opened Common
  import opened QueueModel

  /** One lease ever handed out. */
  datatype Issue = Issue(id: nat, s: nat, node: string)

  /** The queue, its jobs log, the jobs whose durable delete is in flight (acked under
      a lease id, or diverted to the dead-letter topic), and the issued leases. */
  datatype World = World(q: Queue, jobs: Jobs, acking: map<nat, nat>, diverted: set<nat>, issued: seq<Issue>)

  datatype Op =
    | Append(count: nat, dead: set<nat>)      // `dead`: rolled-back seqs of the batch
    | Remove(gone: set<nat>)                  // voluntary delete, cap or TTL eviction
    | SweepAt(now: int)
    | ClaimOne(now: int, node: string, conn: Option<nat>, deadline: int, dl: DeadLetterPolicy)
    | ActOn(now: int, node: string, act: Act, items: seq<Item>)
    | Disconnect(closed: nat)
    | DeleteOk(s: nat)                        // an in-flight durable delete landed
    | DeleteFail(s: nat)                      // it failed: the job is re-queued
    | DeadLetterRollback(count: nat)          // a failed dead-letter append un-counts its jobs

  /** `acking` extended by the jobs an ack request acted on. */
  function Acking(acking: map<nat, nat>, acted: seq<(nat, nat)>): map<nat, nat> {
    if acted == [] then acking
    else Acking(acking, acted[..|acted| - 1])[acted[|acted| - 1].0 := acted[|acted| - 1].1]
  }

  ghost function Do(w: World, op: Op): World {
    match op
    case Append(n, dead) =>
      w.(jobs := Jobs(w.jobs.head + n,
                      w.jobs.live + (Range(w.jobs.head + 1, w.jobs.head + n + 1) - dead)))
    case Remove(gone) => w.(jobs := w.jobs.(live := w.jobs.live - gone))
    case SweepAt(now) => w.(q := Sweep(w.q, now))
    case ClaimOne(now, node, conn, deadline, dl) =>
      var (q1, next) := NextClaimable(Sweep(w.q, now), w.jobs);
      if next.None? then w.(q := q1)
      else if Poison(q1, next.value, dl) then
        w.(q := Divert(q1, next.value), diverted := w.diverted + {next.value})
      else
        w.(q := LeaseTo(q1, next.value, node, conn, deadline),
           issued := w.issued + [Issue(q1.nextId, next.value, node)])
    case ActOn(now, node, act, items) =>
      var r := ActAll(Sweep(w.q, now), node, act, items);
      w.(q := r.q, acking := if act.Ack? then Acking(w.acking, r.acted) else w.acking)
    case Disconnect(conn) => w.(q := Release(w.q, conn))
    case DeleteOk(s) =>
      if s in Limbo(w) then
        w.(jobs := w.jobs.(live := w.jobs.live - {s}), acking := w.acking - {s}, diverted := w.diverted - {s})
      else w
    case DeleteFail(s) =>
      if s in Limbo(w) then
        w.(q := PushReclaim(w.q, s), acking := w.acking - {s}, diverted := w.diverted - {s})
      else w
    case DeadLetterRollback(n) =>
      w.(q := w.q.(deadLettered := if n <= w.q.deadLettered then w.q.deadLettered - n else 0))
  }

  ghost function Run(w: World, ops: seq<Op>): World {
    if ops == [] then w else Do(Run(w, ops[..|ops| - 1]), ops[|ops| - 1])
  }

  lemma {:induction false} RunConcat(w: World, a: seq<Op>, b: seq<Op>)
    ensures Run(w, a + b) == Run(Run(w, a), b)
  {
    if b == [] {
      assert a + b == a;
    } else {
      RunConcat(w, a, b[..|b| - 1]);
      ConcatInit(a, b);
    }
  }

  lemma RunSnoc(w: World, ops: seq<Op>, op: Op)
    ensures Run(w, ops + [op]) == Do(Run(w, ops), op)
  {
    assert (ops + [op])[..|ops|] == ops;
  }

  function Start(seqBase: nat): World
    requires seqBase >= 1
  {
    World(New(seqBase), Jobs(seqBase - 1, {}), map[], {}, [])
  }

  // ---- conservation ---------------------------------------------------------

  /** The jobs the queue is not free to hand out by itself: their delete is in flight. */
  function Limbo(w: World): set<nat> { w.acking.Keys + w.diverted }

  ghost predicate Below(seqs: set<nat>, bound: nat) {
    forall s :: s in seqs ==> s < bound
  }

  /** In how many of the five places job `s` is. */
  function Places(w: World, s: nat): nat {
    Ind(s >= w.q.cursor) + Ind(s in w.q.leases) + Ind(s in w.q.reclaim) + Ind(s in w.q.delayed)
    + Ind(s in w.acking || s in w.diverted)
  }

  /** No seq is in two places (so everything leased, on the freelist, delayed or in
      flight lies below the cursor), and no live job is lost. */
  ghost predicate PlacedAt(w: World, s: nat) {
    Places(w, s) <= 1 && (s in w.jobs.live ==> Places(w, s) == 1)
  }

  ghost predicate Conserved(w: World) {
    && w.q.cursor <= w.jobs.head + 1
    && (forall s :: s in w.jobs.live ==> s <= w.jobs.head)
    && Below(w.q.deliveries.Keys, w.q.cursor)
    && forall s: nat :: PlacedAt(w, s)
  }

  /** Jobs a claim may hand out: live, and neither leased, delayed nor in flight. */
  function Claimable(w: World): set<nat> {
    w.jobs.live - w.q.leases.Keys - w.q.delayed.Keys - Limbo(w)
  }

  lemma SweepKeepsConserved(w: World, now: int)
    requires Conserved(w)
    ensures Conserved(w.(q := Sweep(w.q, now)))
  {
    forall s: nat ensures PlacedAt(w.(q := Sweep(w.q, now)), s) { assert PlacedAt(w, s); }
  }

  lemma ClaimableSplit(w: World)
    requires Conserved(w)
    ensures Claimable(w) == Poppable(w.q, w.jobs) + FreshSeqs(w.q, w.jobs)
    ensures forall s :: s in Poppable(w.q, w.jobs) ==> s < w.q.cursor
  {
    forall s: nat ensures s in Claimable(w) <==> s in Poppable(w.q, w.jobs) + FreshSeqs(w.q, w.jobs) {
      assert PlacedAt(w, s);
    }
    forall s | s in Poppable(w.q, w.jobs) ensures s < w.q.cursor { assert PlacedAt(w, s); }
  }

  /** Freelist plus cursor refine the set of claimable jobs: the next claimable seq
      is its minimum, and there is none exactly when the set is empty. */
  lemma NextIsMinimum(w: World)
    requires Conserved(w)
    ensures var (q1, next) := NextClaimable(w.q, w.jobs);
            && (next.None? <==> Claimable(w) == {})
            && (next.Some? ==> next.value == MinOf(Claimable(w)))
  {
    ClaimableSplit(w);
    var (q1, next) := NextClaimable(w.q, w.jobs);
    if next.Some? {
      assert next.value in Claimable(w) && forall s :: s in Claimable(w) ==> next.value <= s;
    }
  }

  /** Taking the next claimable job moves exactly that job out of the queue's hands. */
  lemma NextKeepsConserved(w: World)
    requires Conserved(w)
    ensures var (q1, next) := NextClaimable(w.q, w.jobs);
            && (next.None? ==> Conserved(w.(q := q1)))
            && (next.Some? ==> Conserved(w.(q := q1, diverted := w.diverted + {next.value})))
            && (next.Some? ==> next.value !in w.q.leases.Keys + w.q.delayed.Keys + Limbo(w))
  {
    ClaimableSplit(w);
    var (q1, next) := NextClaimable(w.q, w.jobs);
    var w1 := w.(q := q1, diverted := w.diverted + if next.Some? then {next.value} else {});
    forall s: nat ensures PlacedAt(w1, s) {
      assert PlacedAt(w, s);
      assert s in w.jobs.live && s in w.q.reclaim ==> s in Poppable(w.q, w.jobs);
      assert s in w.jobs.live && s >= w.q.cursor ==> s in FreshSeqs(w.q, w.jobs);
    }
    if next.None? { assert w1.diverted == w.diverted; }
  }

  lemma {:induction false} ActKeepsConserved(w: World, node: string, act: Act, items: seq<Item>)
    requires Conserved(w)
    ensures var r := ActAll(w.q, node, act, items);
            Conserved(w.(q := r.q, acking := if act.Ack? then Acking(w.acking, r.acted) else w.acking))
  {
    if items != [] {
      ActKeepsConserved(w, node, act, items[..|items| - 1]);
      var r0, item := ActAll(w.q, node, act, items[..|items| - 1]), items[|items| - 1];
      var w0 := w.(q := r0.q, acking := if act.Ack? then Acking(w.acking, r0.acted) else w.acking);
      if Held(r0.q, node, item) {
        EffectKeepsConserved(w0, act, item.s, r0.q.leases[item.s].id);
        assert (r0.acted + [(item.s, r0.q.leases[item.s].id)])[..|r0.acted|] == r0.acted;
      }
    }
  }

  lemma EffectKeepsConserved(w: World, act: Act, s: nat, id: nat)
    requires Conserved(w) && s in w.q.leases
    ensures Conserved(w.(q := Effect(w.q, act, s), acking := if act.Ack? then w.acking[s := id] else w.acking))
  {
    var w1 := w.(q := Effect(w.q, act, s), acking := if act.Ack? then w.acking[s := id] else w.acking);
    forall x: nat ensures PlacedAt(w1, x) { assert PlacedAt(w, x); }
    assert PlacedAt(w, s);
  }

  /** Handing a job taken off the queue to a claimer. */
  lemma LeaseKeepsConserved(w: World, s: nat, node: string, conn: Option<nat>, deadline: int)
    requires s !in Limbo(w) && s !in w.q.leases && Conserved(w.(diverted := w.diverted + {s}))
    ensures Conserved(w.(q := LeaseTo(w.q, s, node, conn, deadline)))
  {
    var w0, w1 := w.(diverted := w.diverted + {s}), w.(q := LeaseTo(w.q, s, node, conn, deadline));
    forall x: nat ensures PlacedAt(w1, x) { assert PlacedAt(w0, x); }
    assert PlacedAt(w0, s);
  }

  lemma DivertKeepsConserved(w: World, s: nat)
    requires Conserved(w)
    ensures Conserved(w.(q := Divert(w.q, s)))
  {
    forall x: nat ensures PlacedAt(w.(q := Divert(w.q, s)), x) { assert PlacedAt(w, x); }
  }

  lemma ClaimKeepsConserved(w: World, op: Op)
    requires Conserved(w) && op.ClaimOne?
    ensures Conserved(Do(w, op))
  {
    var w1 := w.(q := Sweep(w.q, op.now));
    SweepKeepsConserved(w, op.now);
    NextKeepsConserved(w1);
    var (q1, next) := NextClaimable(w1.q, w.jobs);
    if next.Some? {
      if Poison(q1, next.value, op.dl) {
        DivertKeepsConserved(w1.(q := q1, diverted := w.diverted + {next.value}), next.value);
      } else {
        LeaseKeepsConserved(w1.(q := q1), next.value, op.node, op.conn, op.deadline);
        IssuedIsHistory(w.(q := LeaseTo(q1, next.value, op.node, op.conn, op.deadline)), Do(w, op).issued);
      }
    }
  }

  lemma IssuedIsHistory(w: World, issued: seq<Issue>)
    requires Conserved(w)
    ensures Conserved(w.(issued := issued))
  {
    forall x: nat ensures PlacedAt(w.(issued := issued), x) { assert PlacedAt(w, x); }
  }

  lemma LogKeepsConserved(w: World, op: Op)
    requires Conserved(w) && (op.Append? || op.Remove?)
    ensures Conserved(Do(w, op))
  {
    forall s: nat ensures PlacedAt(Do(w, op), s) { assert PlacedAt(w, s); }
  }

  lemma DisconnectKeepsConserved(w: World, op: Op)
    requires Conserved(w) && (op.Disconnect? || op.DeadLetterRollback?)
    ensures Conserved(Do(w, op))
  {
    forall s: nat ensures PlacedAt(Do(w, op), s) { assert PlacedAt(w, s); }
  }

  lemma DeleteKeepsConserved(w: World, op: Op)
    requires Conserved(w) && (op.DeleteOk? || op.DeleteFail?)
    ensures Conserved(Do(w, op))
  {
    forall s: nat ensures PlacedAt(Do(w, op), s) { assert PlacedAt(w, s); }
    assert PlacedAt(w, op.s);
  }

  lemma StepKeepsConserved(w: World, op: Op)
    requires Conserved(w)
    ensures Conserved(Do(w, op))
  {
    match op {
      case Append(_, _) => LogKeepsConserved(w, op);
      case Remove(_) => LogKeepsConserved(w, op);
      case SweepAt(now) => SweepKeepsConserved(w, now);
      case ClaimOne(_, _, _, _, _) => ClaimKeepsConserved(w, op);
      case ActOn(now, node, act, items) =>
        SweepKeepsConserved(w, now);
        ActKeepsConserved(w.(q := Sweep(w.q, now)), node, act, items);
      case Disconnect(_) => DisconnectKeepsConserved(w, op);
      case DeleteOk(_) => DeleteKeepsConserved(w, op);
      case DeleteFail(_) => DeleteKeepsConserved(w, op);
      case DeadLetterRollback(_) => DisconnectKeepsConserved(w, op);
    }
  }

  /** Conservation over every run: each live job is in exactly one of fresh, leased,
      on the freelist, delayed, or (only while a durable delete is in flight) limbo. */
  lemma {:induction false} Conservation(seqBase: nat, ops: seq<Op>)
    requires seqBase >= 1
    ensures var w := Run(Start(seqBase), ops);
            && Conserved(w)
            && forall s :: s in w.jobs.live ==> Places(w, s) == 1
  {
    if ops != [] {
      Conservation(seqBase, ops[..|ops| - 1]);
      StepKeepsConserved(Run(Start(seqBase), ops[..|ops| - 1]), ops[|ops| - 1]);
    }
    var w := Run(Start(seqBase), ops);
    forall s | s in w.jobs.live ensures Places(w, s) == 1 { assert PlacedAt(w, s); }
  }

  // ---- one claim ------------------------------------------------------------

  /** The effect on the queue of taking job `m`: lease it, or divert a poison job. */
  ghost predicate TakesJob(w: World, op: Op, w1: World, m: nat)
    requires op.ClaimOne?
  {
    if Poison(w.q, m, op.dl) then
      && w1.diverted == w.diverted + {m} && w1.issued == w.issued
      && w1.q.leases == w.q.leases && w1.q.deliveries == w.q.deliveries - {m}
    else
      && w1.diverted == w.diverted && w1.issued == w.issued + [Issue(w.q.nextId, m, op.node)]
      && w1.q.leases == w.q.leases[m := Lease(op.node, w.q.nextId, op.deadline, op.conn)]
      && w1.q.deliveries == w.q.deliveries[m := Delivered(w.q, m) + 1]
  }

  /** A claim takes the least claimable job, if there is one, and nothing else. */
  lemma ClaimTakesMinimum(w: World, op: Op)
    requires Conserved(w) && op.ClaimOne? && Swept(w.q, op.now) && op.now < op.deadline
    ensures var w1 := Do(w, op);
            && Conserved(w1) && Swept(w1.q, op.now) && w1.jobs == w.jobs && w1.acking == w.acking
            && (Claimable(w) == {} ==>
                  w1 == w.(q := w1.q) && w1.q.leases == w.q.leases && w1.q.deliveries == w.q.deliveries
                      && Claimable(w1) == {})
            && (Claimable(w) != {} ==>
                  var m := MinOf(Claimable(w));
                  m !in w.q.leases && m !in Limbo(w) && TakesJob(w, op, w1, m) && Claimable(w1) == Claimable(w) - {m})
  {
    SweptSweepIsIdentity(w.q, op.now);
    NextIsMinimum(w);
    NextKeepsConserved(w);
    StepKeepsConserved(w, op);
    var w1 := Do(w, op);
    if Claimable(w) != {} {
      var m := MinOf(Claimable(w));
      assert TakesJob(w, op, w1, m);
      TakenIsGone(w, op, w1, m);
    }
  }

  lemma TakenIsGone(w: World, op: Op, w1: World, m: nat)
    requires op.ClaimOne? && TakesJob(w, op, w1, m) && w1.jobs == w.jobs && w1.acking == w.acking
    requires w1.q.delayed == w.q.delayed
    ensures Claimable(w1) == Claimable(w) - {m}
  {
    assert w1.q.leases.Keys + Limbo(w1) == w.q.leases.Keys + Limbo(w) + {m};
  }

  // ---- the ready counter ----------------------------------------------------

  function LeasedLive(leases: map<nat, Lease>, jobs: Jobs): set<nat> {
    set s | s in leases && s in jobs.live
  }

  function DelayedLive(delayed: map<nat, int>, jobs: Jobs, now: int): set<nat> {
    set s | s in delayed && now < delayed[s] && s in jobs.live
  }

  function SatSub(a: nat, b: nat): nat { if a <= b then 0 else a - b }

  /** The working-set formula: live jobs less the leased and the still-delayed ones. */
  function ReadyCount(leases: map<nat, Lease>, delayed: map<nat, int>, jobs: Jobs, now: int): nat {
    SatSub(SatSub(|jobs.live|, |LeasedLive(leases, jobs)|), |DelayedLive(delayed, jobs, now)|)
  }

  /** The live jobs that can be claimed, or have their delete in flight. */
  ghost function Ready(w: World): nat { |Claimable(w)| + |Limbo(w) * w.jobs.live| }

  lemma LivePartition(w: World, now: int)
    requires Conserved(w) && Swept(w.q, now)
    ensures var leased, delayed, limbo := LeasedLive(w.q.leases, w.jobs), DelayedLive(w.q.delayed, w.jobs, now),
            Limbo(w) * w.jobs.live;
            && leased !! delayed && leased !! limbo && delayed !! limbo
            && Claimable(w) == w.jobs.live - leased - delayed - limbo
  {
    forall s: nat | s in w.jobs.live
      ensures Ind(s in LeasedLive(w.q.leases, w.jobs)) + Ind(s in DelayedLive(w.q.delayed, w.jobs, now))
              + Ind(s in Limbo(w)) + Ind(s in Claimable(w)) == 1
    {
      assert PlacedAt(w, s);
    }
  }

  /** Swept, the formula is the size of the claimable set plus the jobs whose delete
      is in flight; between operations it is exactly the claimable set's size. */
  lemma ReadyCountIsClaimable(w: World, now: int)
    requires Conserved(w) && Swept(w.q, now)
    ensures ReadyCount(w.q.leases, w.q.delayed, w.jobs, now) == Ready(w)
    ensures Limbo(w) == {} ==> Ready(w) == |Claimable(w)|
  {
    LivePartition(w, now);
    var leased, delayed := LeasedLive(w.q.leases, w.jobs), DelayedLive(w.q.delayed, w.jobs, now);
    SplitSize(w.jobs.live, leased, delayed, Limbo(w) * w.jobs.live);
  }
}
