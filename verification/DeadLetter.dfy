/** Delivery counts and the dead-letter limit over whole runs (`run_claim_cohort` and
    `dead_letter_jobs` in `src/engine/queue.rs`). */
module DeadLetter {
  import opened Common
  import opened QueueModel
  import opened QueueRuns

  // ---- the delivery count is a fact about the run ---------------------------

  /** The step leases job `s`. */
  ghost predicate LeasesNow(w: World, op: Op, s: nat) {
    |Do(w, op).issued| == |w.issued| + 1 && Do(w, op).issued[|w.issued|].s == s
  }

  /** The step takes job `s` off the queue for good or so it hopes: an ack or a divert. */
  ghost predicate TakesOff(w: World, op: Op, s: nat) { s in Limbo(Do(w, op)) && s !in Limbo(w) }

  ghost function Counted(n: nat, w: World, op: Op, s: nat): nat {
    if LeasesNow(w, op, s) then n + 1 else if TakesOff(w, op, s) then 0 else n
  }

  /** How often `s` was leased since it was last acked or diverted. */
  ghost function LeasesSince(base: nat, ops: seq<Op>, s: nat): nat
    requires base >= 1
  {
    if ops == [] then 0 else
    var rest := ops[..|ops| - 1];
    Counted(LeasesSince(base, rest, s), Run(Start(base), rest), ops[|ops| - 1], s)
  }

  lemma {:induction false} ActCounts(q: Queue, node: string, act: Act, items: seq<Item>, acking: map<nat, nat>, s: nat)
    ensures var r := ActAll(q, node, act, items);
            if act.Ack? && s in q.leases && s !in r.q.leases
            then Delivered(r.q, s) == 0 && s in Acking(acking, r.acted)
            else Delivered(r.q, s) == Delivered(q, s) && (act.Ack? ==> (s in Acking(acking, r.acted) <==> s in acking))
    ensures act.Ack? ==> ActAll(q, node, act, items).q.leases.Keys <= q.leases.Keys
  {
    if items != [] {
      var rest, item := items[..|items| - 1], items[|items| - 1];
      ActCounts(q, node, act, rest, acking, s);
      var r0 := ActAll(q, node, act, rest);
      if Held(r0.q, node, item) {
        assert (r0.acted + [(item.s, r0.q.leases[item.s].id)])[..|r0.acted|] == r0.acted;
      }
    }
  }

  lemma ClaimCounts(w: World, op: Op, s: nat)
    requires Conserved(w) && op.ClaimOne?
    ensures Delivered(Do(w, op).q, s) == Counted(Delivered(w.q, s), w, op, s)
  {
    var w1 := w.(q := Sweep(w.q, op.now));
    SweepKeepsConserved(w, op.now);
    NextKeepsConserved(w1);
  }

  lemma StepCounts(w: World, op: Op, s: nat)
    requires Conserved(w)
    ensures Delivered(Do(w, op).q, s) == Counted(Delivered(w.q, s), w, op, s)
  {
    match op
    case ClaimOne(_, _, _, _, _) => ClaimCounts(w, op, s);
    case ActOn(now, node, act, items) =>
      ActCounts(Sweep(w.q, now), node, act, items, w.acking, s);
      assert PlacedAt(w, s);
    case _ =>
  }

  /** The delivery count the queue keeps is the number of leases since the last ack or divert. */
  lemma {:induction false} DeliveredIsLeasesSince(base: nat, ops: seq<Op>, s: nat)
    requires base >= 1
    ensures Delivered(Run(Start(base), ops).q, s) == LeasesSince(base, ops, s)
  {
    if ops != [] {
      var rest := ops[..|ops| - 1];
      DeliveredIsLeasesSince(base, rest, s);
      Conservation(base, rest);
      StepCounts(Run(Start(base), rest), ops[|ops| - 1], s);
    }
  }

  /** A claim that takes `s` diverts it exactly when the limit is on and `s` was leased that
      often since it was last acked or diverted; so a job whose divert failed is diverted again
      only after as many further leases as the limit, none of them acked. */
  lemma DivertsExactlyAtLimit(base: nat, ops: seq<Op>, op: Op, s: nat)
    requires base >= 1 && op.ClaimOne?
    requires LeasesNow(Run(Start(base), ops), op, s) || TakesOff(Run(Start(base), ops), op, s)
    ensures TakesOff(Run(Start(base), ops), op, s) <==>
            op.dl.hasTopic && 0 < op.dl.maxDeliveries <= LeasesSince(base, ops, s)
  {
    DeliveredIsLeasesSince(base, ops, s);
    Conservation(base, ops);
    var w := Run(Start(base), ops);
    SweepKeepsConserved(w, op.now);
    NextKeepsConserved(w.(q := Sweep(w.q, op.now)));
  }

  /** Right after the divert, and still after it failed, the count is zero. */
  lemma FailedDivertStartsOver(base: nat, ops: seq<Op>, op: Op, s: nat)
    requires base >= 1 && TakesOff(Run(Start(base), ops), op, s)
    ensures var w := Run(Start(base), ops + [op, DeleteFail(s)]);
            s in w.q.reclaim && s !in Limbo(w) && LeasesSince(base, ops + [op, DeleteFail(s)], s) == 0
  {
    var ops1, ops2 := ops + [op], ops + [op, DeleteFail(s)];
    assert ops1[..|ops|] == ops && ops2[..|ops1|] == ops1;
    Conservation(base, ops1);
    assert PlacedAt(Run(Start(base), ops1), s);
  }

  // ---- how often a job is leased at all -------------------------------------

  function LeaseCount(issued: seq<Issue>, s: nat): nat {
    if issued == [] then 0 else LeaseCount(issued[..|issued| - 1], s) + Ind(issued[|issued| - 1].s == s)
  }

  /** How often a delete of `s`, acked or diverted, failed. */
  ghost function Fails(base: nat, ops: seq<Op>, s: nat): nat
    requires base >= 1
  {
    if ops == [] then 0 else
    var rest, op := ops[..|ops| - 1], ops[|ops| - 1];
    Fails(base, rest, s) + Ind(op == DeleteFail(s) && s in Limbo(Run(Start(base), rest)))
  }

  /** Every claim is made under the limit `m`. */
  predicate Limited(ops: seq<Op>, m: nat) {
    forall k :: 0 <= k < |ops| && ops[k].ClaimOne? ==> ops[k].dl == DeadLetterPolicy(m, true)
  }

  /** What `s` may have been leased so far: the limit for each failed delete and, unless it may
      not come back, its present count. */
  ghost predicate WithinBudget(w: World, fails: nat, m: nat, s: nat) {
    && Delivered(w.q, s) <= m
    && (s in Limbo(w) ==> Delivered(w.q, s) == 0)
    && LeaseCount(w.issued, s) <= Times(fails, m) + (if s in Limbo(w) || Spent(w, s) then m else Delivered(w.q, s))
  }

  /** The record of `s` is gone. */
  ghost predicate Spent(w: World, s: nat) { s <= w.jobs.head && s !in w.jobs.live }

  lemma ClaimKeepsBudget(w: World, op: Op, fails: nat, m: nat, s: nat)
    requires Conserved(w) && WithinBudget(w, fails, m, s) && op.ClaimOne? && op.dl == DeadLetterPolicy(m, true) && m > 0
    ensures WithinBudget(Do(w, op), fails, m, s)
  {
    var w0, w1 := w.(q := Sweep(w.q, op.now)), Do(w, op);
    ClaimCounts(w, op, s);
    SweepKeepsConserved(w, op.now);
    NextKeepsConserved(w0);
    if |w1.issued| == |w.issued| + 1 {
      assert w1.issued[..|w.issued|] == w.issued;
    }
  }

  lemma StepKeepsBudget(w: World, op: Op, fails: nat, m: nat, s: nat)
    requires Conserved(w) && WithinBudget(w, fails, m, s) && m > 0
    requires op.ClaimOne? ==> op.dl == DeadLetterPolicy(m, true)
    ensures WithinBudget(Do(w, op), fails + Ind(op == DeleteFail(s) && s in Limbo(w)), m, s)
  {
    if op.ClaimOne? {
      ClaimKeepsBudget(w, op, fails, m, s);
    } else {
      StepCounts(w, op, s);
      assert PlacedAt(w, s);
      assert Times(fails + 1, m) == Times(fails, m) + m;
      if op.ActOn? {
        ActCounts(Sweep(w.q, op.now), op.node, op.act, op.items, w.acking, s);
      }
    }
  }

  lemma {:induction false} RunKeepsBudget(base: nat, ops: seq<Op>, m: nat, s: nat)
    requires base >= 1 && m > 0 && Limited(ops, m)
    ensures WithinBudget(Run(Start(base), ops), Fails(base, ops, s), m, s)
  {
    if ops != [] {
      var rest := ops[..|ops| - 1];
      RunKeepsBudget(base, rest, m, s);
      Conservation(base, rest);
      StepKeepsBudget(Run(Start(base), rest), ops[|ops| - 1], Fails(base, rest, s), m, s);
    }
  }

  /** Under a limit of `m` deliveries a job is leased at most `m` times, and `m` times more for
      each delete of it, acked or diverted, that failed. */
  lemma LeasedWithinLimit(base: nat, ops: seq<Op>, m: nat, s: nat)
    requires base >= 1 && m > 0 && Limited(ops, m)
    ensures LeaseCount(Run(Start(base), ops).issued, s) <= Times(Fails(base, ops, s) + 1, m)
  {
    RunKeepsBudget(base, ops, m, s);
  }

  // ---- a job leased twice under a limit of one ------------------------------

  const ONCE: DeadLetterPolicy := DeadLetterPolicy(1, true)

  function ClaimAt(now: int): Op { ClaimOne(now, "w", None, now + 50, ONCE) }

  /** Leased once; its lease runs out; the next claim diverts it; the dead-letter append fails;
      and it is leased again. */
  const FAILED_DIVERT: seq<Op> :=
    [Append(1, {}), ClaimAt(0), SweepAt(51), ClaimAt(51), DeleteFail(1), DeadLetterRollback(1), ClaimAt(51)]

  lemma RunThree(w: World, ops: seq<Op>, a: Op, b: Op, c: Op)
    ensures Run(w, ops + [a] + [b] + [c]) == Do(Do(Do(Run(w, ops), a), b), c)
  {
    RunSnoc(w, ops, a);
    RunSnoc(w, ops + [a], b);
    RunSnoc(w, ops + [a] + [b], c);
  }

  /** Claiming the only claimable job. */
  lemma ClaimOnly(w: World, now: int)
    requires Conserved(w) && Swept(w.q, now) && Claimable(w) == {1}
    ensures var w1 := Do(w, ClaimAt(now));
            && Conserved(w1) && w1.jobs == w.jobs && w1.acking == w.acking && w1.q.delayed == w.q.delayed
            && if Delivered(w.q, 1) >= 1
               then w1.diverted == w.diverted + {1} && w1.issued == w.issued && w1.q.leases == w.q.leases
                   && Delivered(w1.q, 1) == 0
               else && w1.diverted == w.diverted && w1.issued == w.issued + [Issue(w.q.nextId, 1, "w")]
                    && w1.q.leases == w.q.leases[1 := Lease("w", w.q.nextId, now + 50, None)] && Delivered(w1.q, 1) == 1
  {
    ClaimTakesMinimum(w, ClaimAt(now));
  }

  lemma FirstLease()
    ensures var w := Run(Start(1), FAILED_DIVERT[..2]);
            && w.jobs.live == {1} && w.acking == map[] && w.diverted == {} && |w.issued| == 1 && w.issued[0].s == 1
            && w.q.leases.Keys == {1} && w.q.leases[1].deadline == 50 && w.q.delayed == map[] && Delivered(w.q, 1) == 1
  {
    var w0 := Start(1);
    var w1 := Do(w0, Append(1, {}));
    Conservation(1, []);
    StepKeepsConserved(w0, Append(1, {}));
    assert Claimable(w1) == {1};
    ClaimOnly(w1, 0);
    assert FAILED_DIVERT[..2] == [] + [Append(1, {})] + [ClaimAt(0)];
    RunSnoc(w0, [], Append(1, {}));
    RunSnoc(w0, [] + [Append(1, {})], ClaimAt(0));
  }

  lemma LateClaimDiverts()
    ensures var w := Run(Start(1), FAILED_DIVERT[..4]);
            && w.jobs.live == {1} && w.acking == map[] && w.diverted == {1} && |w.issued| == 1 && w.issued[0].s == 1
            && w.q.leases == map[] && w.q.delayed == map[] && Delivered(w.q, 1) == 0
  {
    var w0 := Run(Start(1), FAILED_DIVERT[..2]);
    FirstLease();
    Conservation(1, FAILED_DIVERT[..2]);
    SweepKeepsConserved(w0, 51);
    var w1 := Do(w0, SweepAt(51));
    assert w1.q.leases == map[] && Claimable(w1) == {1};
    ClaimOnly(w1, 51);
    assert FAILED_DIVERT[..4] == FAILED_DIVERT[..2] + [SweepAt(51)] + [ClaimAt(51)];
    RunSnoc(Start(1), FAILED_DIVERT[..2], SweepAt(51));
    RunSnoc(Start(1), FAILED_DIVERT[..2] + [SweepAt(51)], ClaimAt(51));
  }

  lemma RequeuedIsLeased(w0: World)
    requires Conserved(w0) && w0.jobs.live == {1} && w0.acking == map[] && w0.diverted == {1}
    requires w0.q.leases == map[] && w0.q.delayed == map[] && Delivered(w0.q, 1) == 0
    ensures var w := Do(Do(Do(w0, DeleteFail(1)), DeadLetterRollback(1)), ClaimAt(51));
            |w.issued| == |w0.issued| + 1 && w.issued[..|w0.issued|] == w0.issued && w.issued[|w0.issued|].s == 1
  {
    var w1 := Do(w0, DeleteFail(1));
    StepKeepsConserved(w0, DeleteFail(1));
    var w2 := Do(w1, DeadLetterRollback(1));
    StepKeepsConserved(w1, DeadLetterRollback(1));
    assert w2.acking == map[] && w2.diverted == {} && Claimable(w2) == {1};
    ClaimOnly(w2, 51);
  }

  lemma TwoLeases(issued: seq<Issue>)
    requires |issued| == 2 && issued[0].s == 1 && issued[1].s == 1
    ensures LeaseCount(issued, 1) == 2
  {
    assert issued[..1][..0] == [] && LeaseCount(issued[..1], 1) == 1;
  }

  /** The last three steps of the run. */
  lemma FailedDivertEnds()
    ensures var ops := FAILED_DIVERT[..4];
            Run(Start(1), FAILED_DIVERT) ==
                Do(Do(Do(Run(Start(1), ops), DeleteFail(1)), DeadLetterRollback(1)), ClaimAt(51))
  {
    var ops := FAILED_DIVERT[..4];
    RunThree(Start(1), ops, DeleteFail(1), DeadLetterRollback(1), ClaimAt(51));
    assert FAILED_DIVERT == ops + [DeleteFail(1)] + [DeadLetterRollback(1)] + [ClaimAt(51)];
  }

  /** The limit of one delivery does not hold over a failed divert. */
  lemma LeasedAgainAfterFailedDivert()
    ensures Limited(FAILED_DIVERT, 1) && LeaseCount(Run(Start(1), FAILED_DIVERT).issued, 1) == 2
  {
    var w0 := Run(Start(1), FAILED_DIVERT[..4]);
    LateClaimDiverts();
    Conservation(1, FAILED_DIVERT[..4]);
    RequeuedIsLeased(w0);
    FailedDivertEnds();
    var issued := Run(Start(1), FAILED_DIVERT).issued;
    assert issued[0] == issued[..1][0];
    TwoLeases(issued);
  }
}
