/** The queue operations of the engine (`src/engine/queue.rs`): each method runs its
    critical section on the lease projection and is proved to be a run of the steps of
    `QueueRuns`, so conservation and fencing hold of every sequence of calls. */
module QueueEngine {
  import opened Common
  import Q = QueueModel
  import R = QueueRuns
  import P = QueueProjection
  import L = LeaseReplay
  import opened ClaimPass
  import opened QueueOutcomes

  datatype Outcome = Empty | Leased(job: LeasedJob) | Diverted(s: nat)

  datatype Error = InvalidRequest | BatchTooLarge | Internal

  /** `x` if it is within the limits, or the limit it exceeds. */
  function Clamp(x: int, lo: int, hi: int): (r: int)
    requires lo <= hi
    ensures lo <= r <= hi && (r <= x || r == lo) && (x <= r || r == hi)
  {
    if x < lo then lo else if x > hi then hi else x
  }

  /** What a claimer may get: its `max` clamped to `[1, MAX_CLAIM]`. */
  function Demand(c: Claimer): nat {
    Clamp(c.max, 1, Q.MAX_CLAIM)
  }

  /** A claimer gets no more than it asks for, but may ask for one, and no more than the cap; and no
      less, unless nothing is left. */
  ghost predicate Granted(cs: seq<Claimer>, out: seq<seq<LeasedJob>>, nothingLeft: bool) {
    && |out| == |cs|
    && forall i :: 0 <= i < |cs| ==>
         && |out[i]| <= Max(cs[i].max, 1) && |out[i]| <= Q.MAX_CLAIM
         && (nothingLeft || (1 <= |out[i]| && (cs[i].max <= |out[i]| || |out[i]| == Q.MAX_CLAIM)))
  }

  lemma CountsAreGranted(cs: seq<Claimer>, out: seq<seq<LeasedJob>>, nothingLeft: bool)
    requires |out| == |cs| && Fair(Demands(cs), Counts(out)) && (nothingLeft || Counts(out) == Demands(cs))
    ensures Granted(cs, out, nothingLeft)
  {
    forall i | 0 <= i < |cs|
      ensures |out[i]| <= Demand(cs[i]) && (nothingLeft || |out[i]| == Demand(cs[i]))
    {
      assert Counts(out)[i] == |out[i]| && Demands(cs)[i] == Demand(cs[i]);
    }
  }

  /** What a pass over a swept queue hands out: a run of claims that gives the lowest claimable jobs to
      the claimers, each as many as it asked for or all fairly if there are not enough, and the
      poison jobs to the dead letters. */
  ghost predicate HandedOut(w0: R.World, t: Terms, cs: seq<Claimer>, out: seq<seq<LeasedJob>>, dead: seq<nat>,
      events: seq<L.Frame>, p: Pass, ops: seq<R.Op>) {
    && PassOk(w0, cs, t, p) && p.w == R.Run(w0, ops) && AllClaims(t, cs, ops) && events == L.ClaimedAll(w0, ops)
    && p.out == out && InFlight(dead, p.w.diverted) && (forall s :: s in p.dead <==> s in dead)
    && (R.Claimable(p.w) == {} || Counts(out) == Demands(cs))
    && Fair(Demands(cs), Counts(out)) && Granted(cs, out, R.Claimable(p.w) == {})
  }

  /** Every job runs until `now` and the asked lease time, or the limit that exceeds. */
  ghost predicate Timed(out: seq<seq<LeasedJob>>, now: int, asked: nat) {
    forall i, k :: 0 <= i < |out| && 0 <= k < |out[i]| ==>
      var ms := out[i][k].deadline - now;
      && Q.MIN_LEASE_MS <= ms <= Q.MAX_LEASE_MS
      && (ms <= asked || ms == Q.MIN_LEASE_MS) && (asked <= ms || ms == Q.MAX_LEASE_MS)
  }

  function Asked(leaseMs: Option<nat>, topicLeaseMs: nat): nat {
    if leaseMs.Some? then leaseMs.value else topicLeaseMs
  }

  lemma PassIsTimed(w0: R.World, cs: seq<Claimer>, t: Terms, p: Pass, asked: nat)
    requires PassOk(w0, cs, t, p) && t.deadline == t.now + Clamp(asked, Q.MIN_LEASE_MS, Q.MAX_LEASE_MS)
    ensures Timed(p.out, t.now, asked)
  {
    forall i, k | 0 <= i < |p.out| && 0 <= k < |p.out[i]| ensures p.out[i][k].deadline == t.deadline {
      assert HandedTo(w0, cs, t, p, i, p.out[i][k]);
    }
  }

  // ---- one claim ------------------------------------------------------------

  /** What one claim hands out from a swept queue. */
  ghost function ClaimOutcome(w: R.World, t: Terms): Outcome {
    var (q1, next) := Q.NextClaimable(w.q, w.jobs);
    if next.None? then Empty
    else if Q.Poison(q1, next.value, t.dl) then Diverted(next.value)
    else Leased(LeasedJob(next.value, w.q.nextId, t.deadline, Q.Delivered(w.q, next.value) + 1))
  }

  /** A claim hands out the least claimable job, and nothing exactly when there is none;
      a job past its delivery limit is diverted instead. */
  lemma OutcomeIsMinimum(w: R.World, t: Terms)
    requires R.Conserved(w)
    ensures var r := ClaimOutcome(w, t);
            && (r.Empty? <==> R.Claimable(w) == {})
            && (r.Leased? ==> r.job.s == MinOf(R.Claimable(w)) && !Q.Poison(w.q, r.job.s, t.dl))
            && (r.Diverted? ==> r.s == MinOf(R.Claimable(w)) && Q.Poison(w.q, r.s, t.dl))
  {
    R.NextIsMinimum(w);
  }

  /** The lease event of a job handed out. */
  function EventOf(job: LeasedJob, node: string): L.Frame {
    L.Frame(L.CLAIMED, job.s, node, job.id, job.deadline, job.deliveries)
  }

  /** The lease event of a claim is that of the job it hands out. */
  lemma OutcomeIsLogged(w: R.World, t: Terms, c: Claimer)
    requires Q.Swept(w.q, t.now)
    ensures var r := ClaimOutcome(w, t);
            L.Claimed(w, ClaimOp(t, c)) == if r.Leased? then [EventOf(r.job, c.node)] else []
  {
    Q.SweptSweepIsIdentity(w.q, t.now);
  }

  function ClaimOp(t: Terms, c: Claimer): R.Op {
    R.ClaimOne(t.now, c.node, c.conn, t.deadline, t.dl)
  }

  ghost predicate IsClaim(t: Terms, cs: seq<Claimer>, op: R.Op) {
    exists i :: 0 <= i < |cs| && op == ClaimOp(t, cs[i])
  }

  ghost predicate AllClaims(t: Terms, cs: seq<Claimer>, ops: seq<R.Op>) {
    forall k :: 0 <= k < |ops| ==> IsClaim(t, cs, ops[k])
  }

  function Demands(cs: seq<Claimer>): seq<nat> {
    seq(|cs|, i requires 0 <= i < |cs| => Demand(cs[i]))
  }

  /** The deadline a claim grants: the asked or the topic's lease time, clamped. */
  function Deadline(now: int, leaseMs: Option<nat>, topicLeaseMs: nat): (d: int)
    ensures now + Q.MIN_LEASE_MS <= d <= now + Q.MAX_LEASE_MS
  {
    now + Clamp(Asked(leaseMs, topicLeaseMs), Q.MIN_LEASE_MS, Q.MAX_LEASE_MS)
  }

  // ---- requests -------------------------------------------------------------

  /** The request's seqs paired with their tokens; no tokens at all means node-only matching. */
  function Items(seqs: seq<nat>, leaseIds: seq<Option<nat>>): seq<Q.Item> {
    seq(|seqs|, i requires 0 <= i < |seqs| => Q.Item(seqs[i], if i < |leaseIds| then leaseIds[i] else None))
  }

  /** The job's token in the request, if it has one. */
  predicate TokenFits(leaseIds: seq<Option<nat>>, k: nat, id: nat) {
    leaseIds == [] || (k < |leaseIds| && (leaseIds[k].None? || leaseIds[k].value == id))
  }

  /** `node` holds the k-th job of the request under the token the request gives for it. */
  predicate HeldAs(q: Q.Queue, node: string, seqs: seq<nat>, leaseIds: seq<Option<nat>>, k: nat)
    requires k < |seqs|
  {
    seqs[k] in q.leases && q.leases[seqs[k]].node == node && TokenFits(leaseIds, k, q.leases[seqs[k]].id)
  }

  /** A request acts on exactly the named jobs its node holds under the given tokens, and skips the
      others. */
  ghost predicate Answers(q: Q.Queue, node: string, seqs: seq<nat>, leaseIds: seq<Option<nat>>,
      acted: seq<(nat, nat)>, skipped: seq<nat>) {
    && (forall k :: 0 <= k < |seqs| ==>
          if HeldAs(q, node, seqs, leaseIds, k) then seqs[k] in Firsts(acted) else seqs[k] in skipped)
    && (forall i :: 0 <= i < |acted| ==>
          && acted[i].0 in q.leases && acted[i].1 == q.leases[acted[i].0].id
          && exists k :: 0 <= k < |seqs| && seqs[k] == acted[i].0 && HeldAs(q, node, seqs, leaseIds, k))
  }

  lemma RequestIsAnswered(q: Q.Queue, node: string, seqs: seq<nat>, leaseIds: seq<Option<nat>>, act: Q.Act)
    requires leaseIds == [] || |leaseIds| == |seqs|
    ensures var r := Q.ActAll(q, node, act, Items(seqs, leaseIds));
            Answers(q, node, seqs, leaseIds, r.acted, r.skipped)
  {
    var items := Items(seqs, leaseIds);
    var r := Q.ActAll(q, node, act, items);
    forall k | 0 <= k < |seqs|
      ensures if HeldAs(q, node, seqs, leaseIds, k) then seqs[k] in Firsts(r.acted) else seqs[k] in r.skipped
    {
      ActsExactlyOnHeld(q, node, act, items, k);
    }
    ActedAreEntitled(q, node, act, items);
    forall i | 0 <= i < |r.acted|
      ensures exists k :: 0 <= k < |seqs| && seqs[k] == r.acted[i].0 && HeldAs(q, node, seqs, leaseIds, k)
    {
      assert Entitled(q, node, items, r.acted[i]);
      var k :| 0 <= k < |items| && items[k].s == r.acted[i].0
        && (items[k].token.None? || items[k].token.value == r.acted[i].1);
      assert HeldAs(q, node, seqs, leaseIds, k);
    }
  }

  /** Why an ack, nack or extend request is refused outright. */
  function Refusal(node: string, seqs: seq<nat>, leaseIds: seq<Option<nat>>): (r: Option<Error>)
    ensures r.None? <==> node != "" && |seqs| <= Q.MAX_CLAIM && (leaseIds == [] || |leaseIds| == |seqs|)
    ensures r == Some(BatchTooLarge) <==> node != "" && |seqs| > Q.MAX_CLAIM
    ensures r.None? || r.value != Internal
  {
    if node == "" then Some(InvalidRequest)
    else if |seqs| > Q.MAX_CLAIM then Some(BatchTooLarge)
    else if leaseIds != [] && |leaseIds| != |seqs| then Some(InvalidRequest)
    else None
  }

  /** An acked batch is deleted in order until a delete fails; the whole rest is re-queued. */
  function Landed(seqs: seq<nat>, ok: nat): set<nat> {
    set i | 0 <= i < |seqs| && i < ok :: seqs[i]
  }

  /** A nacked job can be claimed at once, or from the end of the asked delay on and not before; a
      delay over the limit ends there. */
  ghost predicate NackFrees(w: R.World, acted: seq<nat>, now: int, delay: nat) {
    forall s :: s in acted && s in w.jobs.live ==>
      && (delay == 0 ==> s in R.Claimable(w))
      && (delay > 0 ==> FreeFrom(w, s, now + Min(delay, Q.MAX_NACK_DELAY_MS)))
  }

  lemma NackFreesExactly(w: R.World, node: string, act: Q.Act, items: seq<Q.Item>, w1: R.World, now: int, delay: nat)
    requires R.Conserved(w1) && act.Nack? && w1.q == Q.ActAll(w.q, node, act, items).q
    requires act.readyAt == if delay > 0 then Some(now + Min(delay, Q.MAX_NACK_DELAY_MS)) else None
    ensures NackFrees(w1, Firsts(Q.ActAll(w.q, node, act, items).acted), now, delay)
  {
    var r := Q.ActAll(w.q, node, act, items);
    forall s | s in Firsts(r.acted) && s in w1.jobs.live
      ensures (delay == 0 ==> s in R.Claimable(w1))
      ensures delay > 0 ==> FreeFrom(w1, s, now + Min(delay, Q.MAX_NACK_DELAY_MS))
    {
      EachFate(w.q, node, act, items, s);
      assert R.PlacedAt(w1, s);
      if delay > 0 { forall t { ClaimableFrom(w1, s, t); } }
    }
  }

  /** An extended lease stays with its holder and runs until `now` and the asked time, or the limit
      that exceeds. */
  ghost predicate Extends(q: Q.Queue, acted: seq<nat>, now: int, asked: nat, q1: Q.Queue) {
    forall s :: s in acted ==>
      && s in q.leases && s in q1.leases && q1.leases[s] == q.leases[s].(deadline := q1.leases[s].deadline)
      && var ms := q1.leases[s].deadline - now;
         && Q.MIN_LEASE_MS <= ms <= Q.MAX_LEASE_MS
         && (ms <= asked || ms == Q.MIN_LEASE_MS) && (asked <= ms || ms == Q.MAX_LEASE_MS)
  }

  lemma ExtendsExactly(q: Q.Queue, node: string, act: Q.Act, items: seq<Q.Item>, now: int, asked: nat)
    requires act == Q.Extend(now + Clamp(asked, Q.MIN_LEASE_MS, Q.MAX_LEASE_MS))
    ensures var r := Q.ActAll(q, node, act, items); Extends(q, Firsts(r.acted), now, asked, r.q)
  {
    var r := Q.ActAll(q, node, act, items);
    forall s | s in Firsts(r.acted) ensures ActedOn(q, act, r.q, s) { EachFate(q, node, act, items, s); }
  }

  /** Of the acked jobs the first `ok` are gone, and the others are on the freelist and as live as they
      were; no other job comes or goes. */
  ghost predicate AckSettles(w: R.World, acted: seq<nat>, ok: nat, w1: R.World) {
    && (forall i :: 0 <= i < |acted| ==>
          var s := acted[i];
          if i < ok then s !in w1.jobs.live && s !in w1.q.reclaim
          else s in w1.q.reclaim && (s in w1.jobs.live <==> s in w.jobs.live))
    && (forall s: nat :: s !in acted ==> (s in w1.jobs.live <==> s in w.jobs.live))
  }

  lemma AckSettlesExactly(w: R.World, acted: seq<nat>, ok: nat)
    requires R.Conserved(w) && InFlight(acted, R.Limbo(w))
    ensures AckSettles(w, acted, ok, R.Run(w, SettleOps(acted, Landed(acted, ok))))
  {
    SettlesExactly(w, acted, Landed(acted, ok));
    forall i | 0 <= i < |acted| ensures acted[i] !in w.q.reclaim && (acted[i] in Landed(acted, ok) <==> i < ok) {
      assert R.PlacedAt(w, acted[i]);
    }
  }

  /** The queue once diverted jobs have been dead-lettered: if the append did not happen all
      are re-queued and un-counted, else each source delete in `landed` removes its job. */
  ghost function AfterDeadLetters(w: R.World, dead: seq<nat>, appended: bool, landed: set<nat>): R.World {
    if appended then R.Run(w, SettleOps(dead, landed))
    else R.Do(R.Run(w, SettleOps(dead, {})), R.DeadLetterRollback(|dead|))
  }

  /** Without the append every diverted job is re-queued and none removed; with it exactly those
      whose delete landed are gone. */
  ghost predicate DeadLettered(w: R.World, dead: seq<nat>, appended: bool, landed: set<nat>, w1: R.World) {
    && (forall s: nat :: s in w1.jobs.live <==> s in w.jobs.live && !(appended && s in dead && s in landed))
    && (forall s :: s in dead && !(appended && s in landed) ==> s in w1.q.reclaim)
    && w1.q.deadLettered == if appended then w.q.deadLettered else R.SatSub(w.q.deadLettered, |dead|)
  }

  /** Settled deletes leave nothing expired or due. */
  lemma {:induction false} SettledStaysSwept(w: R.World, seqs: seq<nat>, landed: set<nat>, now: int)
    requires Q.Swept(w.q, now)
    ensures Q.Swept(R.Run(w, SettleOps(seqs, landed)).q, now)
  {
    if seqs != [] {
      var n := |seqs| - 1;
      SettledStaysSwept(w, seqs[..n], landed, now);
      R.RunSnoc(w, SettleOps(seqs[..n], landed), if seqs[n] in landed then R.DeleteOk(seqs[n])
          else R.DeleteFail(seqs[n]));
    }
  }

  lemma NoDeadLetters(w: R.World, appended: bool, landed: set<nat>)
    ensures AfterDeadLetters(w, [], appended, landed) == w
  {
    assert R.Run(w, []) == w;
  }

  lemma DeadLettersStaySwept(w: R.World, dead: seq<nat>, appended: bool, landed: set<nat>, now: int)
    requires Q.Swept(w.q, now)
    ensures Q.Swept(AfterDeadLetters(w, dead, appended, landed).q, now)
  {
    SettledStaysSwept(w, dead, if appended then landed else {}, now);
  }

  lemma ClaimSnoc(w: R.World, t: Terms, cs: seq<Claimer>, ops: seq<R.Op>, i: nat)
    requires AllClaims(t, cs, ops) && i < |cs|
    ensures var op := ClaimOp(t, cs[i]); AllClaims(t, cs, ops + [op]) && R.Run(w, ops + [op]) == R.Do(R.Run(w, ops), op)
  {
    R.RunSnoc(w, ops, ClaimOp(t, cs[i]));
    assert IsClaim(t, cs, ClaimOp(t, cs[i]));
  }

  lemma {:induction false} ActedIsAcking(acking: map<nat, nat>, acted: seq<(nat, nat)>)
    ensures forall i :: 0 <= i < |acted| ==> acted[i].0 in R.Acking(acking, acted)
  {
    if acted != [] {
      var n := |acted| - 1;
      ActedIsAcking(acking, acted[..n]);
      forall i | 0 <= i < |acted| ensures acted[i].0 in R.Acking(acking, acted) {
        if i < n { assert acted[..n][i].0 in R.Acking(acking, acted[..n]); }
      }
    }
  }

  ghost predicate Distinct(acted: seq<(nat, nat)>) {
    forall i, j :: 0 <= i < j < |acted| ==> acted[i].0 != acted[j].0
  }

  /** An ack acts on a job at most once: its lease is gone afterwards. */
  lemma {:induction false} AckedOnce(q: Q.Queue, node: string, items: seq<Q.Item>)
    ensures var r := Q.ActAll(q, node, Q.Ack, items);
            Distinct(r.acted) && forall i :: 0 <= i < |r.acted| ==> r.acted[i].0 !in r.q.leases
  {
    if items != [] {
      AckedOnce(q, node, items[..|items| - 1]);
    }
  }

  /** The jobs an ack acted on have their delete in flight. */
  lemma AckIsInFlight(w: R.World, now: int, node: string, items: seq<Q.Item>, w1: R.World)
    requires w1 == R.Do(w, R.ActOn(now, node, Q.Ack, items))
    ensures InFlight(Firsts(Q.ActAll(Q.Sweep(w.q, now), node, Q.Ack, items).acted), R.Limbo(w1))
  {
    AckedOnce(Q.Sweep(w.q, now), node, items);
    ActedIsAcking(w.acking, Q.ActAll(Q.Sweep(w.q, now), node, Q.Ack, items).acted);
  }

  lemma RunCons(w: R.World, op: R.Op, ops: seq<R.Op>)
    ensures R.Run(w, [op] + ops) == R.Run(R.Do(w, op), ops)
  {
    R.RunConcat(w, [op], ops);
    assert [op][..0] == [] && R.Run(w, [op]) == R.Do(R.Run(w, []), op);
  }

  class QueueTopic {
    const q: P.Projection
    var jobs: Q.Jobs
    ghost var acking: map<nat, nat>
    ghost var diverted: set<nat>
    ghost var issued: seq<R.Issue>

    ghost function World(): R.World
      reads this, q
    {
      R.World(q.View(), jobs, acking, diverted, issued)
    }

    ghost predicate Valid()
      reads this, q
    {
      q.Valid() && R.Conserved(World())
    }

    constructor (seqBase: nat)
      requires seqBase >= 1
      ensures Valid() && World() == R.Start(seqBase) && fresh(q)
    {
      q := new P.Projection(seqBase);
      jobs := Q.Jobs(seqBase - 1, {});
      acking, diverted, issued := map[], {}, [];
      new;
      R.Conservation(seqBase, []);
    }

    /** The critical section of ack, nack and extend: sweep, then each named job in turn. */
    method ActUnderLock(nowMs: int, node: string, act: Q.Act, items: seq<Q.Item>)
      returns (acted: seq<(nat, nat)>, skipped: seq<nat>)
      requires Valid()
      modifies this, q
      ensures Valid() && World() == R.Do(old(World()), R.ActOn(nowMs, node, act, items))
      ensures var r := Q.ActAll(Q.Sweep(old(q.View()), nowMs), node, act, items);
              acted == r.acted && skipped == r.skipped
    {
      ghost var w := World();
      R.StepKeepsConserved(w, R.ActOn(nowMs, node, act, items));
      q.SweepExpired(nowMs);
      R.SweepKeepsConserved(w, nowMs);
      ghost var w1 := World();
      acted, skipped := [], [];
      for i := 0 to |items|
        invariant q.Valid() && jobs == w.jobs && acking == w.acking && diverted == w.diverted && issued == w.issued
        invariant Q.ActResult(q.View(), acted, skipped) == Q.ActAll(w1.q, node, act, items[..i])
      {
        assert items[..i + 1][..i] == items[..i];
        R.ActKeepsConserved(w1, node, act, items[..i]);
        assert R.PlacedAt(w1.(q := q.View(), acking := if act.Ack? then R.Acking(w1.acking, acted) else w1.acking),
            items[i].s);
        var id := q.ActOne(node, act, items[i]);
        if id.Some? {
          acted := acted + [(items[i].s, id.value)];
        } else {
          skipped := skipped + [items[i].s];
        }
      }
      assert items[..|items|] == items;
      if act.Ack? {
        acking := R.Acking(acking, acted);
      }
    }

    /** Ack: release the held jobs, then delete each durably; `ok` deletes land before
        one fails. */
    method AckFenced(nowMs: int, node: string, seqs: seq<nat>, leaseIds: seq<Option<nat>>, ok: nat)
      returns (err: Option<Error>, acked: nat, skipped: seq<nat>)
      requires Valid()
      modifies this, q
      ensures Valid()
      ensures Refusal(node, seqs, leaseIds).Some? ==> err == Refusal(node, seqs, leaseIds) && World() == old(World())
      ensures Refusal(node, seqs, leaseIds).None? ==>
                var items := Items(seqs, leaseIds);
                var r := Q.ActAll(Q.Sweep(old(q.View()), nowMs), node, Q.Ack, items);
                && World() == R.Run(old(World()),
                     [R.ActOn(nowMs, node, Q.Ack, items)] + SettleOps(Firsts(r.acted), Landed(Firsts(r.acted), ok)))
                && err == (if ok < |r.acted| then Some(Internal) else None)
                && acked == |r.acted| && skipped == r.skipped
                && Answers(Q.Sweep(old(q.View()), nowMs), node, seqs, leaseIds, r.acted, r.skipped)
                && AckSettles(old(World()), Firsts(r.acted), ok, World())
    {
      err, acked, skipped := Refusal(node, seqs, leaseIds), 0, [];
      if err.Some? {
        return;
      }
      ghost var w, op := World(), R.ActOn(nowMs, node, Q.Ack, Items(seqs, leaseIds));
      var acted;
      acted, skipped := ActUnderLock(nowMs, node, Q.Ack, Items(seqs, leaseIds));
      acked := |acted|;
      AckIsInFlight(w, nowMs, node, Items(seqs, leaseIds), World());
      RequestIsAnswered(Q.Sweep(w.q, nowMs), node, seqs, leaseIds, Q.Ack);
      AckSettlesExactly(World(), Firsts(acted), ok);
      RunCons(w, op, SettleOps(Firsts(acted), Landed(Firsts(acted), ok)));
      SettleAll(Firsts(acted), Landed(Firsts(acted), ok));
      if ok < |acted| {
        err := Some(Internal);
      }
    }

    /** Settle a batch of in-flight deletes in order. */
    method SettleAll(seqs: seq<nat>, landed: set<nat>)
      requires Valid() && InFlight(seqs, R.Limbo(World()))
      modifies this, q
      ensures Valid() && World() == R.Run(old(World()), SettleOps(seqs, landed))
    {
      ghost var w0 := World();
      for i := 0 to |seqs|
        invariant Valid() && World() == R.Run(w0, SettleOps(seqs[..i], landed))
        invariant forall k :: i <= k < |seqs| ==> seqs[k] in R.Limbo(World())
      {
        assert seqs[..i + 1][..i] == seqs[..i];
        assert forall k :: i < k < |seqs| ==> seqs[k] in R.Limbo(World()) - {seqs[i]};
        ghost var op := if seqs[i] in landed then R.DeleteOk(seqs[i]) else R.DeleteFail(seqs[i]);
        assert SettleOps(seqs[..i + 1], landed) == SettleOps(seqs[..i], landed) + [op];
        R.RunSnoc(w0, SettleOps(seqs[..i], landed), op);
        SettleDelete(seqs[i], seqs[i] in landed);
      }
      assert seqs[..|seqs|] == seqs;
    }

    /** The outcome of one in-flight durable delete: the job is gone, or re-queued. */
    method SettleDelete(s: nat, ok: bool)
      requires Valid() && s in R.Limbo(World())
      modifies this, q
      ensures Valid() && World() == R.Do(old(World()), if ok then R.DeleteOk(s) else R.DeleteFail(s))
      ensures R.Limbo(World()) == R.Limbo(old(World())) - {s}
    {
      R.StepKeepsConserved(World(), if ok then R.DeleteOk(s) else R.DeleteFail(s));
      if ok {
        jobs := jobs.(live := jobs.live - {s});
      } else {
        q.PushReclaim(s);
      }
      acking, diverted := acking - {s}, diverted - {s};
    }

    /** Nack: release the held jobs at once, or after a clamped delay. */
    method NackFenced(nowMs: int, node: string, seqs: seq<nat>, delayMs: nat, leaseIds: seq<Option<nat>>)
      returns (err: Option<Error>, nacked: nat, skipped: seq<nat>)
      requires Valid()
      modifies this, q
      ensures Valid() && err == Refusal(node, seqs, leaseIds)
      ensures err.Some? ==> World() == old(World())
      ensures err.None? ==>
                var delay := Clamp(delayMs, 0, Q.MAX_NACK_DELAY_MS);
                var act := Q.Nack(if delay > 0 then Some(nowMs + delay) else None);
                var r := Q.ActAll(Q.Sweep(old(q.View()), nowMs), node, act, Items(seqs, leaseIds));
                && World() == R.Do(old(World()), R.ActOn(nowMs, node, act, Items(seqs, leaseIds)))
                && nacked == |r.acted| && skipped == r.skipped
                && Answers(Q.Sweep(old(q.View()), nowMs), node, seqs, leaseIds, r.acted, r.skipped)
                && NackFrees(World(), Firsts(r.acted), nowMs, delayMs)
    {
      err, nacked, skipped := Refusal(node, seqs, leaseIds), 0, [];
      if err.Some? {
        return;
      }
      var delay := Clamp(delayMs, 0, Q.MAX_NACK_DELAY_MS);
      var acted;
      var act := Q.Nack(if delay > 0 then Some(nowMs + delay) else None);
      ghost var w := World().(q := Q.Sweep(q.View(), nowMs));
      acted, skipped := ActUnderLock(nowMs, node, act, Items(seqs, leaseIds));
      nacked := |acted|;
      RequestIsAnswered(w.q, node, seqs, leaseIds, act);
      NackFreesExactly(w, node, act, Items(seqs, leaseIds), World(), nowMs, delayMs);
    }

    /** Extend: push out the deadlines of the held leases by a clamped lease time. */
    method ExtendFenced(nowMs: int, node: string, seqs: seq<nat>, leaseMs: nat, leaseIds: seq<Option<nat>>)
      returns (err: Option<Error>, extended: nat, skipped: seq<nat>)
      requires Valid()
      modifies this, q
      ensures Valid() && err == Refusal(node, seqs, leaseIds)
      ensures err.Some? ==> World() == old(World())
      ensures err.None? ==>
                var act := Q.Extend(nowMs + Clamp(leaseMs, Q.MIN_LEASE_MS, Q.MAX_LEASE_MS));
                var r := Q.ActAll(Q.Sweep(old(q.View()), nowMs), node, act, Items(seqs, leaseIds));
                && World() == R.Do(old(World()), R.ActOn(nowMs, node, act, Items(seqs, leaseIds)))
                && extended == |r.acted| && skipped == r.skipped
                && Answers(Q.Sweep(old(q.View()), nowMs), node, seqs, leaseIds, r.acted, r.skipped)
                && Extends(Q.Sweep(old(q.View()), nowMs), Firsts(r.acted), nowMs, leaseMs, q.View())
    {
      err, extended, skipped := Refusal(node, seqs, leaseIds), 0, [];
      if err.Some? {
        return;
      }
      var acted;
      var act := Q.Extend(nowMs + Clamp(leaseMs, Q.MIN_LEASE_MS, Q.MAX_LEASE_MS));
      ghost var q0 := Q.Sweep(q.View(), nowMs);
      acted, skipped := ActUnderLock(nowMs, node, act, Items(seqs, leaseIds));
      extended := |acted|;
      RequestIsAnswered(q0, node, seqs, leaseIds, act);
      ExtendsExactly(q0, node, act, Items(seqs, leaseIds), nowMs, leaseMs);
    }

    /** A `/work` connection closed: its jobs are claimable again at once. */
    method ReleaseWorkConn(conn: nat)
      requires Valid()
      modifies q
      ensures Valid() && World() == R.Do(old(World()), R.Disconnect(conn))
    {
      R.StepKeepsConserved(World(), R.Disconnect(conn));
      q.ReleaseConn(conn);
    }

    /** Move diverted jobs to the dead-letter topic. If the topic is missing or its append
        fails, every job is re-queued and un-counted; otherwise each source delete lands
        or re-queues its job. */
    method DeadLetterJobs(seqs: seq<nat>, appended: bool, landed: set<nat>)
      requires Valid() && InFlight(seqs, R.Limbo(World()))
      modifies this, q
      ensures Valid() && World() == AfterDeadLetters(old(World()), seqs, appended, landed)
      ensures DeadLettered(old(World()), seqs, appended, landed, World())
    {
      SettlesExactly(World(), seqs, if appended then landed else {});
      if appended {
        SettleAll(seqs, landed);
      } else {
        SettleAll(seqs, {});
        R.StepKeepsConserved(World(), R.DeadLetterRollback(|seqs|));
        q.deadLettered := if |seqs| <= q.deadLettered then q.deadLettered - |seqs| else 0;
      }
    }

    /** One step of a claim pass, after its sweep. */
    method ClaimStep(t: Terms, c: Claimer) returns (r: Outcome)
      requires q.Valid() && Q.Swept(q.View(), t.now)
      modifies this, q
      ensures q.Valid() && r == ClaimOutcome(old(World()), t)
      ensures World() == R.Do(old(World()), R.ClaimOne(t.now, c.node, c.conn, t.deadline, t.dl))
      ensures q.deadLettered == old(q.deadLettered) + Ind(r.Diverted?)
    {
      Q.SweptSweepIsIdentity(q.View(), t.now);
      var next := q.NextClaimable(jobs);
      if next.None? {
        return Empty;
      }
      var s := next.value;
      var count := (if s in q.deliveries then q.deliveries[s] else 0) + 1;
      if t.dl.maxDeliveries > 0 && count > t.dl.maxDeliveries && t.dl.hasTopic {
        q.deliveries := q.deliveries - {s};
        q.deadLettered := q.deadLettered + 1;
        diverted := diverted + {s};
        return Diverted(s);
      }
      var id, delivery := q.Lease(s, c.node, c.conn, t.deadline);
      issued := issued + [R.Issue(id, s, c.node)];
      r := Leased(LeasedJob(s, id, t.deadline, delivery));
    }

    /** One step of a pass, with its books: `i` is the claimer whose turn it is. */
    method ClaimFor(t: Terms, cs: seq<Claimer>, i: nat, ghost w0: R.World, ghost p: Pass)
      returns (r: Outcome, ghost p1: Pass)
      requires Valid() && Q.Swept(q.View(), t.now) && t.now < t.deadline
      requires i < |cs| && PassOk(w0, cs, t, p) && p.w == World()
      modifies this, q
      ensures Valid() && Q.Swept(q.View(), t.now) && World() == R.Do(old(World()), ClaimOp(t, cs[i]))
      ensures PassOk(w0, cs, t, p1) && p1.w == World()
      ensures r == ClaimOutcome(old(World()), t)
      ensures r.Empty? ==> R.Claimable(World()) == {} && p1 == p.(w := World()) && diverted == old(diverted)
      ensures r.Leased? ==> p1 == Lease(p, World(), i, r.job) && diverted == old(diverted)
      ensures r.Diverted? ==>
                && p1 == Pass(World(), p.out, p.owner, p.dead + {r.s})
                && r.s !in R.Limbo(old(World())) && diverted == old(diverted) + {r.s}
      ensures !r.Empty? ==> R.Claimable(World()) < R.Claimable(old(World()))
      ensures acking == old(acking) && q.deadLettered == old(q.deadLettered) + Ind(r.Diverted?)
    {
      R.ClaimTakesMinimum(World(), ClaimOp(t, cs[i]));
      OutcomeIsMinimum(World(), t);
      r := ClaimStep(t, cs[i]);
      match r {
        case Empty =>
          p1 := p.(w := World());
          EmptyKeepsPass(w0, cs, t, p, p1.w);
        case Leased(job) =>
          p1 := Lease(p, World(), i, job);
          LeaseKeepsPass(w0, cs, t, p, i, p1.w, job);
        case Diverted(s) =>
          p1 := Pass(World(), p.out, p.owner, p.dead + {s});
          DivertKeepsPass(w0, cs, t, p, p1.w, s);
      }
    }

    /** The state of a pass between two turns of its loop. */
    ghost predicate Passing(w0: R.World, cs: seq<Claimer>, t: Terms, p: Pass, dead: seq<nat>, ops: seq<R.Op>)
      reads this, q
    {
      && Valid() && Q.Swept(q.View(), t.now) && t.now < t.deadline
      && World() == R.Run(w0, ops) && AllClaims(t, cs, ops)
      && PassOk(w0, cs, t, p) && p.w == World()
      && InFlight(dead, diverted) && (forall s :: s in p.dead <==> s in dead)
      && q.deadLettered == w0.q.deadLettered + |dead|
    }

    /** One turn: the least claimable job goes to claimer `i`, or to the dead letters. */
    method Turn(t: Terms, cs: seq<Claimer>, i: nat, dead: seq<nat>, ghost w0: R.World, ghost p: Pass,
        ghost ops: seq<R.Op>)
      returns (r: Outcome, dead1: seq<nat>, ghost p1: Pass)
      requires i < |cs| && Passing(w0, cs, t, p, dead, ops)
      modifies this, q
      ensures Passing(w0, cs, t, p1, dead1, ops + [ClaimOp(t, cs[i])])
      ensures r.Empty? <==> old(R.Claimable(World())) == {}
      ensures r.Empty? ==> R.Claimable(World()) == {}
      ensures !r.Empty? ==> R.Claimable(World()) < R.Claimable(old(World()))
      ensures p1.out == if r.Leased? then p.out[i := p.out[i] + [r.job]] else p.out
      ensures L.ClaimedAll(w0, ops + [ClaimOp(t, cs[i])]) ==
              L.ClaimedAll(w0, ops) + if r.Leased? then [EventOf(r.job, cs[i].node)] else []
    {
      ClaimSnoc(w0, t, cs, ops, i);
      OutcomeIsLogged(World(), t, cs[i]);
      assert (ops + [ClaimOp(t, cs[i])])[..|ops|] == ops;
      r, p1 := ClaimFor(t, cs, i, w0, p);
      dead1 := if r.Diverted? then dead + [r.s] else dead;
    }

    /** The critical section of a cohort claim, after its sweep: jobs are handed out
        round-robin until every demand is met or nothing is claimable. */
    method HandOut(t: Terms, claimers: seq<Claimer>)
      returns (out: seq<seq<LeasedJob>>, toDeadLetter: seq<nat>, events: seq<L.Frame>, ghost p: Pass,
          ghost ops: seq<R.Op>)
      requires Valid() && Q.Swept(q.View(), t.now) && t.now < t.deadline
      modifies this, q
      ensures Passing(old(World()), claimers, t, p, toDeadLetter, ops) && p.out == out
      ensures R.Claimable(World()) == {} || Counts(out) == Demands(claimers)
      ensures Fair(Demands(claimers), Counts(out)) && Granted(claimers, out, R.Claimable(World()) == {})
      ensures events == L.ClaimedAll(old(World()), ops)
    {
      var demands := Demands(claimers);
      var remaining: seq<nat>, totalRemaining: nat, rr: nat := demands, Sum(demands), 0;
      out, toDeadLetter := seq(|claimers|, i => []), [];
      ghost var w0, level := World(), 0;
      p, ops, events := Pass(w0, out, map[], {}), [], [];
      PassStarts(w0, claimers, t);
      ZeroCounts(demands, Counts(out));
      while totalRemaining > 0
        invariant Passing(w0, claimers, t, p, toDeadLetter, ops) && p.out == out && |out| == |claimers|
        invariant Rota(demands, remaining, totalRemaining, Counts(out), rr, level)
        invariant events == L.ClaimedAll(w0, ops)
        decreases R.Claimable(World())
      {
        rr, level := NextClaimer(demands, remaining, totalRemaining, rr, Counts(out), level);
        if remaining[rr] == 0 {
          break;
        }
        var r;
        r, toDeadLetter, p := Turn(t, claimers, rr, toDeadLetter, w0, p, ops);
        ops := ops + [ClaimOp(t, claimers[rr])];
        if r.Empty? {
          assert events + [] == events;
          break;
        }
        if r.Leased? {
          events := events + [EventOf(r.job, claimers[rr].node)];
          remaining, totalRemaining, out, rr, level := Give(demands, remaining, totalRemaining, out, rr, level, r.job);
        }
      }
      RotaIsFair(demands, remaining, totalRemaining, Counts(out), rr, level);
      CountsAreGranted(claimers, out, R.Claimable(World()) == {});
    }

    /** Sweep and hand out under the lock. */
    method ClaimUnderLock(t: Terms, claimers: seq<Claimer>, ghost asked: nat)
      returns (out: seq<seq<LeasedJob>>, toDeadLetter: seq<nat>, events: seq<L.Frame>, ghost p: Pass,
          ghost ops: seq<R.Op>)
      requires Valid() && t.deadline == t.now + Clamp(asked, Q.MIN_LEASE_MS, Q.MAX_LEASE_MS)
      modifies this, q
      ensures Valid() && Q.Swept(q.View(), t.now) && p.w == World() && Timed(out, t.now, asked)
      ensures HandedOut(R.Do(old(World()), R.SweepAt(t.now)), t, claimers, out, toDeadLetter, events, p, ops)
      ensures q.deadLettered == old(q.deadLettered) + |toDeadLetter| && InFlight(toDeadLetter, R.Limbo(World()))
    {
      R.StepKeepsConserved(World(), R.SweepAt(t.now));
      Q.SweepSweeps(q.View(), t.now);
      q.SweepExpired(t.now);
      ghost var w0 := World();
      out, toDeadLetter, events, p, ops := HandOut(t, claimers);
      PassIsTimed(w0, claimers, t, p, asked);
    }

    /** A whole cohort claim: sweep and hand out under the lock (`p` is the pass at its end),
        then dead-letter the diverted jobs; `events` are the lease events it then logs, and
        `ready` is how many jobs are left to claim or have their delete in flight. */
    method RunClaimCohort(nowMs: int, claimers: seq<Claimer>, leaseMs: Option<nat>, topicLeaseMs: nat,
        dl: Q.DeadLetterPolicy, appended: bool, landed: set<nat>)
      returns (out: seq<seq<LeasedJob>>, ready: nat, events: seq<L.Frame>, ghost dead: seq<nat>, ghost p: Pass,
          ghost ops: seq<R.Op>)
      requires Valid()
      modifies this, q
      ensures Valid() && World() == AfterDeadLetters(p.w, dead, appended, landed)
      ensures HandedOut(R.Do(old(World()), R.SweepAt(nowMs)), Terms(nowMs, Deadline(nowMs, leaseMs, topicLeaseMs), dl),
                        claimers, out, dead, events, p, ops)
      ensures Timed(out, nowMs, if leaseMs.Some? then leaseMs.value else topicLeaseMs)
      ensures DeadLettered(p.w, dead, appended, landed, World())
      ensures q.deadLettered == if appended then old(q.deadLettered) + |dead| else old(q.deadLettered)
      ensures ready == R.Ready(World())
    {
      var t := Terms(nowMs, Deadline(nowMs, leaseMs, topicLeaseMs), dl);
      var toDeadLetter;
      out, toDeadLetter, events, p, ops := ClaimUnderLock(t, claimers, Asked(leaseMs, topicLeaseMs));
      dead := toDeadLetter;
      ghost var before, counted: nat := old(q.deadLettered), q.deadLettered;
      assert counted == before + |dead|;
      Divert(toDeadLetter, appended, landed, nowMs);
      assert q.deadLettered == if appended then counted else before by { assert R.SatSub(counted, |dead|) == before; }
      ready := ReadyNow(nowMs);
    }

    /** Dead-letter the diverted jobs, if any. */
    method Divert(dead: seq<nat>, appended: bool, landed: set<nat>, ghost nowMs: int)
      requires Valid() && InFlight(dead, R.Limbo(World())) && Q.Swept(q.View(), nowMs)
      modifies this, q
      ensures Valid() && World() == AfterDeadLetters(old(World()), dead, appended, landed)
      ensures Q.Swept(q.View(), nowMs) && DeadLettered(old(World()), dead, appended, landed, World())
      ensures q.deadLettered == if appended then old(q.deadLettered) else R.SatSub(old(q.deadLettered), |dead|)
    {
      DeadLettersStaySwept(World(), dead, appended, landed, nowMs);
      if dead != [] {
        DeadLetterJobs(dead, appended, landed);
      } else {
        NoDeadLetters(World(), appended, landed);
      }
      assert q.View() == World().q;
    }

    /** Live jobs less the leased and the still-delayed ones. */
    method ReadyNow(nowMs: int) returns (ready: nat)
      requires Valid() && Q.Swept(q.View(), nowMs)
      ensures ready == R.Ready(World())
    {
      ready := R.ReadyCount(q.leases, q.delayed, jobs, nowMs);
      R.ReadyCountIsClaimable(World(), nowMs);
    }
  }
}
