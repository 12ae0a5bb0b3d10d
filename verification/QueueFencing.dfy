/** Mutual exclusion and stale-worker fencing over whole runs of a queue. */
module QueueFencing {
  import opened Common
  import opened QueueModel
  import opened QueueRuns

  /** The most recent lease issued for job `s`. */
  function LastIssue(issued: seq<Issue>, s: nat): Option<Issue> {
    if issued == [] then None
    else if issued[|issued| - 1].s == s then Some(issued[|issued| - 1])
    else LastIssue(issued[..|issued| - 1], s)
  }

  /** Ids are handed out in strictly increasing order, below the allocator. */
  ghost predicate IdsIncrease(issued: seq<Issue>, nextId: nat) {
    && (forall i, j :: 0 <= i < j < |issued| ==> issued[i].id < issued[j].id)
    && (forall i :: 0 <= i < |issued| ==> issued[i].id < nextId)
  }

  /** Every lease in the map is the latest one issued for its job. */
  ghost predicate LeaseIsLatest(q: Queue, issued: seq<Issue>, s: nat) {
    s in q.leases ==> LastIssue(issued, s) == Some(Issue(q.leases[s].id, s, q.leases[s].node))
  }

  ghost predicate Fenced(w: World) {
    && IdsIncrease(w.issued, w.q.nextId)
    && forall s: nat :: LeaseIsLatest(w.q, w.issued, s)
  }

  /** A worker's request neither adds leases nor changes who holds one. */
  lemma {:induction false} ActKeepsHolders(q: Queue, node: string, act: Act, items: seq<Item>)
    ensures var q1 := ActAll(q, node, act, items).q;
            && q1.nextId == q.nextId
            && forall s :: s in q1.leases ==>
                 s in q.leases && q1.leases[s].id == q.leases[s].id && q1.leases[s].node == q.leases[s].node
  {
    if items != [] { ActKeepsHolders(q, node, act, items[..|items| - 1]); }
  }

  /** Looking for the next job moves only the freelist and the cursor. */
  lemma NextMovesOnly(q: Queue, jobs: Jobs)
    ensures var q1 := NextClaimable(q, jobs).0; q1 == q.(reclaim := q1.reclaim, cursor := q1.cursor)
  {
  }

  lemma LeaseKeepsFenced(w: World, w1: World, m: nat, node: string, conn: Option<nat>, deadline: int)
    requires Fenced(w) && w1.q == LeaseTo(w.q, m, node, conn, deadline)
             && w1.issued == w.issued + [Issue(w.q.nextId, m, node)]
    ensures Fenced(w1)
  {
    assert w1.issued[..|w1.issued| - 1] == w.issued;
    forall s: nat ensures LeaseIsLatest(w1.q, w1.issued, s) { assert LeaseIsLatest(w.q, w.issued, s); }
  }

  lemma SweepKeepsFenced(w: World, now: int)
    requires Fenced(w)
    ensures Fenced(w.(q := Sweep(w.q, now)))
  {
    forall s: nat ensures LeaseIsLatest(Sweep(w.q, now), w.issued, s) { assert LeaseIsLatest(w.q, w.issued, s); }
  }

  lemma SameLeasesFenced(w: World, w1: World)
    requires Fenced(w) && w1.q.leases == w.q.leases && w1.q.nextId == w.q.nextId && w1.issued == w.issued
    ensures Fenced(w1)
  {
    forall s: nat ensures LeaseIsLatest(w1.q, w1.issued, s) { assert LeaseIsLatest(w.q, w.issued, s); }
  }

  lemma ClaimKeepsFenced(w: World, op: Op)
    requires Fenced(w) && op.ClaimOne?
    ensures Fenced(Do(w, op))
  {
    var w0, w1 := w.(q := Sweep(w.q, op.now)), Do(w, op);
    SweepKeepsFenced(w, op.now);
    NextMovesOnly(w0.q, w.jobs);
    var (q1, next) := NextClaimable(w0.q, w.jobs);
    SameLeasesFenced(w0, w0.(q := q1));
    if next.Some? && !Poison(q1, next.value, op.dl) {
      LeaseKeepsFenced(w0.(q := q1), w1, next.value, op.node, op.conn, op.deadline);
    } else {
      SameLeasesFenced(w0, w1);
    }
  }

  lemma StepKeepsFenced(w: World, op: Op)
    requires Conserved(w) && Fenced(w)
    ensures Fenced(Do(w, op))
  {
    if op.ClaimOne? {
      ClaimKeepsFenced(w, op);
    } else {
      var w1 := Do(w, op);
      if op.ActOn? { ActKeepsHolders(Sweep(w.q, op.now), op.node, op.act, op.items); }
      forall s: nat ensures LeaseIsLatest(w1.q, w1.issued, s) { assert LeaseIsLatest(w.q, w.issued, s); }
    }
  }

  lemma {:induction false} RunIsFenced(seqBase: nat, ops: seq<Op>)
    requires seqBase >= 1
    ensures Fenced(Run(Start(seqBase), ops))
  {
    if ops != [] {
      var w := Run(Start(seqBase), ops[..|ops| - 1]);
      Conservation(seqBase, ops[..|ops| - 1]);
      RunIsFenced(seqBase, ops[..|ops| - 1]);
      StepKeepsFenced(w, ops[|ops| - 1]);
    }
  }

  /** No lease id is ever issued twice, over any run. */
  lemma LeaseIdsAreUnique(seqBase: nat, ops: seq<Op>, i: nat, j: nat)
    requires seqBase >= 1
    requires i < j < |Run(Start(seqBase), ops).issued|
    ensures var issued := Run(Start(seqBase), ops).issued; issued[i].id < issued[j].id
  {
    RunIsFenced(seqBase, ops);
  }

  /** The issue a claim makes, if any, is for a job nobody holds, under an id never issued. */
  lemma NewLease(w: World, op: Op)
    requires Conserved(w) && Fenced(w) && op.ClaimOne? && Do(w, op).issued != w.issued
    ensures var w1, n := Do(w, op), |w.issued|;
            && |w1.issued| == n + 1 && w1.issued[..n] == w.issued
            && w1.issued[n].s !in Sweep(w.q, op.now).leases
            && w1.q.leases ==
                 Sweep(w.q, op.now).leases[w1.issued[n].s := Lease(op.node, w1.issued[n].id, op.deadline, op.conn)]
            && (forall i :: 0 <= i < n ==> w.issued[i].id != w1.issued[n].id)
  {
    var w0 := w.(q := Sweep(w.q, op.now));
    SweepKeepsConserved(w, op.now);
    NextKeepsConserved(w0);
    NextMovesOnly(w0.q, w.jobs);
  }

  /** A claim leases a job nobody holds, under an id never issued before. */
  lemma ClaimNeverReplacesALease(seqBase: nat, ops: seq<Op>, op: Op)
    requires seqBase >= 1 && op.ClaimOne?
    requires var w := Run(Start(seqBase), ops); Do(w, op).issued != w.issued
    ensures var w := Run(Start(seqBase), ops);
            var w1, n := Do(w, op), |w.issued|;
            && |w1.issued| == n + 1 && w1.issued[..n] == w.issued
            && w1.issued[n].s !in Sweep(w.q, op.now).leases
            && w1.q.leases ==
                 Sweep(w.q, op.now).leases[w1.issued[n].s := Lease(op.node, w1.issued[n].id, op.deadline, op.conn)]
            && (forall i :: 0 <= i < n ==> w.issued[i].id != w1.issued[n].id)
  {
    Conservation(seqBase, ops);
    RunIsFenced(seqBase, ops);
    NewLease(Run(Start(seqBase), ops), op);
  }

  /** Fencing: an ack, nack or extend carrying token `t` acts on a job only if `t`
      was issued for that job to that node, is the job's latest claim, and the lease
      has not expired. */
  lemma TokenFences(seqBase: nat, ops: seq<Op>, op: Op, i: nat, t: nat)
    requires seqBase >= 1 && op.ActOn? && i < |op.items| && op.items[i].token == Some(t)
    requires var w := Run(Start(seqBase), ops);
             Held(ActAll(Sweep(w.q, op.now), op.node, op.act, op.items[..i]).q, op.node, op.items[i])
    ensures var w := Run(Start(seqBase), ops);
            var s := op.items[i].s;
            && LastIssue(w.issued, s) == Some(Issue(t, s, op.node))
            && s in w.q.leases && w.q.leases[s].id == t && op.now <= w.q.leases[s].deadline
  {
    var w := Run(Start(seqBase), ops);
    RunIsFenced(seqBase, ops);
    ActKeepsHolders(Sweep(w.q, op.now), op.node, op.act, op.items[..i]);
    assert LeaseIsLatest(w.q, w.issued, op.items[i].s);
  }
}
