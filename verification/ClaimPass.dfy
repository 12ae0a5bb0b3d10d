/** The bookkeeping of one cohort claim pass, as a value: who got which job, and what
    of the claimable set is left. */
module ClaimPass {
  import opened Common
  import Q = QueueModel
  import R = QueueRuns

  datatype Claimer = Claimer(node: string, max: nat, conn: Option<nat>)

  datatype LeasedJob = LeasedJob(s: nat, id: nat, deadline: int, deliveries: nat)

  /** The terms of a pass: its clock, the deadline it grants and the dead-letter policy. */
  datatype Terms = Terms(now: int, deadline: int, dl: Q.DeadLetterPolicy)

  /** A pass under way: the queue, the jobs handed to each claimer, the owner of each
      leased job, and the jobs diverted to the dead-letter topic. */
  datatype Pass = Pass(w: R.World, out: seq<seq<LeasedJob>>, owner: map<nat, nat>, dead: set<nat>)

  /** `job`, handed to claimer `i`, is leased to it in the queue. */
  ghost predicate HandedTo(w0: R.World, cs: seq<Claimer>, t: Terms, p: Pass, i: nat, job: LeasedJob)
    requires i < |cs|
  {
    && job.s in p.owner && p.owner[job.s] == i
    && job.s in p.w.q.leases
    && p.w.q.leases[job.s] == Q.Lease(cs[i].node, job.id, t.deadline, cs[i].conn)
    && job.deadline == t.deadline && job.deliveries == Q.Delivered(w0.q, job.s) + 1 == Q.Delivered(p.w.q, job.s)
  }

  ghost predicate Ascending(jobs: seq<LeasedJob>) {
    forall k, l :: 0 <= k < l < |jobs| ==> jobs[k].s < jobs[l].s
  }

  ghost predicate Listed(jobs: seq<LeasedJob>, s: nat) {
    exists k :: 0 <= k < |jobs| && jobs[k].s == s
  }

  ghost predicate AllHanded(w0: R.World, cs: seq<Claimer>, t: Terms, p: Pass) {
    && |p.out| == |cs|
    && forall i, k :: 0 <= i < |cs| && 0 <= k < |p.out[i]| ==> HandedTo(w0, cs, t, p, i, p.out[i][k])
  }

  ghost predicate AllListed(out: seq<seq<LeasedJob>>, owner: map<nat, nat>) {
    && (forall i :: 0 <= i < |out| ==> Ascending(out[i]))
    && (forall s :: s in owner ==> owner[s] < |out| && Listed(out[owner[s]], s))
  }

  /** Each claimer's list is ascending and truly leased to it; every owned job is on its
      owner's list. */
  ghost predicate ListsOk(w0: R.World, cs: seq<Claimer>, t: Terms, p: Pass) {
    AllHanded(w0, cs, t, p) && AllListed(p.out, p.owner)
  }

  /** The pass has taken the lowest claimable jobs and no others: poison jobs were
      diverted, the rest leased. */
  ghost predicate TakenOk(w0: R.World, t: Terms, p: Pass) {
    && p.owner.Keys !! p.dead && p.owner.Keys + p.dead <= R.Claimable(w0)
    && R.Claimable(p.w) == R.Claimable(w0) - p.owner.Keys - p.dead
    && (forall s, c :: (s in p.owner || s in p.dead) && c in R.Claimable(p.w) ==> s < c)
    && (forall c :: c in R.Claimable(p.w) ==> Q.Delivered(p.w.q, c) == Q.Delivered(w0.q, c))
    && (forall s :: s in p.owner ==> !Q.Poison(w0.q, s, t.dl))
    && (forall s :: s in p.dead ==> Q.Poison(w0.q, s, t.dl))
  }

  ghost predicate PassOk(w0: R.World, cs: seq<Claimer>, t: Terms, p: Pass) {
    ListsOk(w0, cs, t, p) && TakenOk(w0, t, p)
  }

  /** No job goes to two claimers, or twice to one. */
  lemma HandedOutOnce(w0: R.World, cs: seq<Claimer>, t: Terms, p: Pass, i: nat, k: nat, j: nat, l: nat)
    requires ListsOk(w0, cs, t, p) && i < |cs| && k < |p.out[i]| && j < |cs| && l < |p.out[j]|
    requires p.out[i][k].s == p.out[j][l].s
    ensures i == j && k == l
  {
    assert HandedTo(w0, cs, t, p, i, p.out[i][k]) && HandedTo(w0, cs, t, p, j, p.out[j][l]);
  }

  function Lease(p: Pass, w1: R.World, i: nat, job: LeasedJob): Pass
    requires i < |p.out|
  {
    Pass(w1, p.out[i := p.out[i] + [job]], p.owner[job.s := i], p.dead)
  }

  /** Leasing the least claimable job to claimer `i` keeps the books. */
  lemma LeaseKeepsPass(w0: R.World, cs: seq<Claimer>, t: Terms, p: Pass, i: nat, w1: R.World, job: LeasedJob)
    requires PassOk(w0, cs, t, p) && i < |cs| && R.Claimable(p.w) != {}
    requires job.s == MinOf(R.Claimable(p.w)) && !Q.Poison(p.w.q, job.s, t.dl)
    requires job == LeasedJob(job.s, p.w.q.nextId, t.deadline, Q.Delivered(p.w.q, job.s) + 1)
    requires R.Claimable(w1) == R.Claimable(p.w) - {job.s}
    requires w1.q.leases == p.w.q.leases[job.s := Q.Lease(cs[i].node, job.id, t.deadline, cs[i].conn)]
    requires w1.q.deliveries == p.w.q.deliveries[job.s := job.deliveries]
    ensures PassOk(w0, cs, t, Lease(p, w1, i, job))
  {
    LeaseKeepsTaken(w0, t, p, i, w1, job);
    LeaseKeepsLists(w0, cs, t, p, i, w1, job);
  }

  lemma LeaseKeepsTaken(w0: R.World, t: Terms, p: Pass, i: nat, w1: R.World, job: LeasedJob)
    requires TakenOk(w0, t, p) && i < |p.out| && R.Claimable(p.w) != {}
    requires job.s == MinOf(R.Claimable(p.w)) && !Q.Poison(p.w.q, job.s, t.dl)
    requires R.Claimable(w1) == R.Claimable(p.w) - {job.s}
    requires w1.q.deliveries == p.w.q.deliveries[job.s := job.deliveries]
    ensures TakenOk(w0, t, Lease(p, w1, i, job))
    ensures job.s !in p.owner && forall s :: s in p.owner ==> s < job.s
  {
    var p1 := Lease(p, w1, i, job);
    assert p1.owner.Keys == p.owner.Keys + {job.s};
    assert R.Claimable(w1) == R.Claimable(w0) - p1.owner.Keys - p.dead;
  }

  lemma LeaseKeepsLists(w0: R.World, cs: seq<Claimer>, t: Terms, p: Pass, i: nat, w1: R.World, job: LeasedJob)
    requires ListsOk(w0, cs, t, p) && i < |cs| && job.s !in p.owner
    requires forall s :: s in p.owner ==> s < job.s
    requires job.deadline == t.deadline && job.deliveries == Q.Delivered(w0.q, job.s) + 1
    requires w1.q.leases == p.w.q.leases[job.s := Q.Lease(cs[i].node, job.id, t.deadline, cs[i].conn)]
    requires w1.q.deliveries == p.w.q.deliveries[job.s := job.deliveries]
    ensures ListsOk(w0, cs, t, Lease(p, w1, i, job))
  {
    LeaseKeepsHanded(w0, cs, t, p, i, w1, job);
    forall k | 0 <= k < |p.out[i]| ensures p.out[i][k].s < job.s { assert HandedTo(w0, cs, t, p, i, p.out[i][k]); }
    LeaseKeepsListed(p.out, p.owner, i, job);
  }

  lemma LeaseKeepsHanded(w0: R.World, cs: seq<Claimer>, t: Terms, p: Pass, i: nat, w1: R.World, job: LeasedJob)
    requires AllHanded(w0, cs, t, p) && i < |cs| && job.s !in p.owner
    requires job.deadline == t.deadline && job.deliveries == Q.Delivered(w0.q, job.s) + 1
    requires w1.q.leases == p.w.q.leases[job.s := Q.Lease(cs[i].node, job.id, t.deadline, cs[i].conn)]
    requires w1.q.deliveries == p.w.q.deliveries[job.s := job.deliveries]
    ensures AllHanded(w0, cs, t, Lease(p, w1, i, job))
  {
    var p1 := Lease(p, w1, i, job);
    forall a, k | 0 <= a < |cs| && 0 <= k < |p1.out[a]| ensures HandedTo(w0, cs, t, p1, a, p1.out[a][k]) {
      if a != i || k < |p.out[i]| { assert HandedTo(w0, cs, t, p, a, p.out[a][k]); }
    }
  }

  lemma LeaseKeepsListed(out: seq<seq<LeasedJob>>, owner: map<nat, nat>, i: nat, job: LeasedJob)
    requires AllListed(out, owner) && i < |out|
    requires forall k :: 0 <= k < |out[i]| ==> out[i][k].s < job.s
    ensures AllListed(out[i := out[i] + [job]], owner[job.s := i])
  {
    var out1, owner1 := out[i := out[i] + [job]], owner[job.s := i];
    forall s | s in owner1 ensures owner1[s] < |out1| && Listed(out1[owner1[s]], s) {
      StaysListed(out, i, job, owner1[s], s);
    }
  }

  lemma StaysListed(out: seq<seq<LeasedJob>>, i: nat, job: LeasedJob, a: nat, s: nat)
    requires i < |out| && a < |out| && (Listed(out[a], s) || (a == i && s == job.s))
    ensures Listed(out[i := out[i] + [job]][a], s)
  {
    var jobs := out[i := out[i] + [job]][a];
    if Listed(out[a], s) {
      var k :| 0 <= k < |out[a]| && out[a][k].s == s;
      assert jobs[k].s == s;
    } else {
      assert jobs[|out[i]|].s == s;
    }
  }

  /** Diverting the least claimable job keeps the books. */
  lemma DivertKeepsPass(w0: R.World, cs: seq<Claimer>, t: Terms, p: Pass, w1: R.World, s: nat)
    requires PassOk(w0, cs, t, p) && R.Claimable(p.w) != {}
    requires s == MinOf(R.Claimable(p.w)) && Q.Poison(p.w.q, s, t.dl)
    requires R.Claimable(w1) == R.Claimable(p.w) - {s}
    requires w1.q.leases == p.w.q.leases && w1.q.deliveries == p.w.q.deliveries - {s}
    ensures PassOk(w0, cs, t, Pass(w1, p.out, p.owner, p.dead + {s}))
  {
    var p1 := Pass(w1, p.out, p.owner, p.dead + {s});
    assert s !in p.owner && s !in p.dead;
    forall a, k | 0 <= a < |cs| && 0 <= k < |p1.out[a]| ensures HandedTo(w0, cs, t, p1, a, p1.out[a][k]) {
      assert HandedTo(w0, cs, t, p, a, p.out[a][k]);
    }
    assert R.Claimable(w1) == R.Claimable(w0) - p1.owner.Keys - p1.dead;
  }

  /** A claim that found nothing keeps the books. */
  lemma EmptyKeepsPass(w0: R.World, cs: seq<Claimer>, t: Terms, p: Pass, w1: R.World)
    requires PassOk(w0, cs, t, p) && R.Claimable(p.w) == {} == R.Claimable(w1)
    requires w1.q.leases == p.w.q.leases && w1.q.deliveries == p.w.q.deliveries
    ensures PassOk(w0, cs, t, p.(w := w1))
  {
    forall a, k | 0 <= a < |cs| && 0 <= k < |p.out[a]| ensures HandedTo(w0, cs, t, p.(w := w1), a, p.out[a][k]) {
      assert HandedTo(w0, cs, t, p, a, p.out[a][k]);
    }
  }

  /** A pass that has handed out nothing. */
  lemma PassStarts(w0: R.World, cs: seq<Claimer>, t: Terms)
    ensures PassOk(w0, cs, t, Pass(w0, seq(|cs|, i => []), map[], {}))
  {
  }

  // ---- the round robin ------------------------------------------------------

  function Counts(out: seq<seq<LeasedJob>>): seq<nat> {
    seq(|out|, i requires 0 <= i < |out| => |out[i]|)
  }

  lemma GivenCount(out: seq<seq<LeasedJob>>, i: nat, job: LeasedJob)
    requires i < |out|
    ensures Counts(out[i := out[i] + [job]]) == Counts(out)[i := Counts(out)[i] + 1]
  {
  }

  /** Every claimer before `rr` was offered `level + 1` jobs, the others `level`;
      nobody got more than its demand. */
  ghost predicate Filled(demands: seq<nat>, counts: seq<nat>, rr: nat, level: nat) {
    && |counts| == |demands|
    && forall i :: 0 <= i < |demands| ==> counts[i] == Min(demands[i], if i < rr then level + 1 else level)
  }

  /** Max-min fairness: nobody gets more than its demand, and no claimer is more than one
      job ahead of an unsatisfied one. */
  ghost predicate Fair(demands: seq<nat>, counts: seq<nat>) {
    && |counts| == |demands| && (forall i :: 0 <= i < |demands| ==> counts[i] <= demands[i])
    && forall i, j :: 0 <= i < |demands| && 0 <= j < |demands| && counts[j] < demands[j] ==> counts[i] <= counts[j] + 1
  }

  function Sum(xs: seq<nat>): nat {
    if xs == [] then 0 else Sum(xs[..|xs| - 1]) + xs[|xs| - 1]
  }

  lemma {:induction false} SumDecrement(xs: seq<nat>, i: nat)
    requires i < |xs| && xs[i] > 0
    ensures Sum(xs) > 0 && Sum(xs[i := xs[i] - 1]) == Sum(xs) - 1
  {
    var n := |xs| - 1;
    if i < n {
      SumDecrement(xs[..n], i);
      assert xs[i := xs[i] - 1][..n] == xs[..n][i := xs[i] - 1];
    } else {
      assert xs[i := xs[i] - 1][..n] == xs[..n];
    }
  }

  lemma {:induction false} SumZero(xs: seq<nat>)
    requires Sum(xs) == 0
    ensures forall i :: 0 <= i < |xs| ==> xs[i] == 0
  {
    if xs != [] { SumZero(xs[..|xs| - 1]); }
  }

  /** The next index of a ring of `n`. */
  function NextIndex(rr: nat, n: nat): nat
    requires rr < n
  {
    if rr + 1 == n then 0 else rr + 1
  }

  /** The round-robin state: what each claimer may still get, and whose turn is next. */
  ghost predicate Rota(demands: seq<nat>, remaining: seq<nat>, total: nat, counts: seq<nat>, rr: nat, level: nat) {
    && |remaining| == |demands| == |counts| && total == Sum(remaining)
    && (forall i :: 0 <= i < |demands| ==> remaining[i] + counts[i] == demands[i])
    && (|demands| > 0 ==> rr < |demands| && Filled(demands, counts, rr, level))
  }

  lemma {:induction false} ZeroCounts(demands: seq<nat>, counts: seq<nat>)
    requires |counts| == |demands| && forall i :: 0 <= i < |counts| ==> counts[i] == 0
    ensures Rota(demands, demands, Sum(demands), counts, 0, 0)
  {
  }

  /** Find a claimer with remaining demand, round-robin from `rr0`. */
  method NextClaimer(demands: seq<nat>, remaining: seq<nat>, total: nat, rr0: nat, ghost counts: seq<nat>,
      ghost level0: nat)
    returns (rr: nat, ghost level: nat)
    requires Rota(demands, remaining, total, counts, rr0, level0) && |demands| > 0
    ensures Rota(demands, remaining, total, counts, rr, level)
    ensures remaining[rr] == 0 ==> counts == demands
  {
    var n, tries := |remaining|, 0;
    rr, level := rr0, level0;
    ghost var wrapped := false;
    while remaining[rr] == 0 && tries < n
      invariant 0 <= rr < n && 0 <= tries <= n && Filled(demands, counts, rr, level)
      invariant tries == if wrapped then n - rr0 + rr else rr - rr0
      invariant forall i :: 0 <= i < n && (if wrapped then i < rr || rr0 <= i else rr0 <= i < rr) ==> remaining[i] == 0
    {
      if rr + 1 == n {
        wrapped, level := true, level + 1;
      }
      rr := NextIndex(rr, n);
      tries := tries + 1;
    }
  }

  /** Hand `job` to the claimer whose turn it is, and pass the turn. */
  method Give(demands: seq<nat>, remaining: seq<nat>, total: nat, out: seq<seq<LeasedJob>>, rr: nat,
      ghost level: nat, job: LeasedJob)
    returns (remaining1: seq<nat>, total1: nat, out1: seq<seq<LeasedJob>>, rr1: nat, ghost level1: nat)
    requires Rota(demands, remaining, total, Counts(out), rr, level) && |demands| > 0 && remaining[rr] > 0
    ensures Rota(demands, remaining1, total1, Counts(out1), rr1, level1)
    ensures out1 == out[rr := out[rr] + [job]]
  {
    level1 := GiveKeepsRota(demands, remaining, total, out, rr, level, job);
    remaining1, total1 := remaining[rr := remaining[rr] - 1], total - 1;
    out1, rr1 := out[rr := out[rr] + [job]], NextIndex(rr, |demands|);
  }

  /** Giving one job to the claimer whose turn it is. */
  lemma GiveKeepsRota(demands: seq<nat>, remaining: seq<nat>, total: nat, out: seq<seq<LeasedJob>>, rr: nat,
      level: nat, job: LeasedJob)
    returns (level1: nat)
    requires Rota(demands, remaining, total, Counts(out), rr, level) && |demands| > 0 && remaining[rr] > 0
    ensures total > 0
    ensures Rota(demands, remaining[rr := remaining[rr] - 1], total - 1, Counts(out[rr := out[rr] + [job]]),
            NextIndex(rr, |demands|), level1)
  {
    SumDecrement(remaining, rr);
    GivenCount(out, rr, job);
    level1 := if rr + 1 == |demands| then level + 1 else level;
  }

  /** The split is fair at every moment, and complete once nothing remains. */
  lemma RotaIsFair(demands: seq<nat>, remaining: seq<nat>, total: nat, counts: seq<nat>, rr: nat, level: nat)
    requires Rota(demands, remaining, total, counts, rr, level)
    ensures Fair(demands, counts) && (total == 0 ==> counts == demands)
  {
    if total == 0 { SumZero(remaining); }
  }
}
