/** What queue requests do to each job, in terms of leases, freelist, delays and the jobs log. */
module QueueOutcomes {
  import opened Common
  import opened QueueModel
  import opened QueueRuns

  // ---- a request, job by job ------------------------------------------------

  function Firsts(acted: seq<(nat, nat)>): seq<nat> {
    seq(|acted|, i requires 0 <= i < |acted| => acted[i].0)
  }

  lemma FirstsSnoc(acted: seq<(nat, nat)>, p: (nat, nat))
    ensures Firsts(acted + [p]) == Firsts(acted) + [p.0]
  {
  }

  /** The node holds the job under this lease id, and an item names the job with that token or with
      none. */
  ghost predicate Entitled(q: Queue, node: string, items: seq<Item>, p: (nat, nat)) {
    && p.0 in q.leases && q.leases[p.0].node == node && q.leases[p.0].id == p.1
    && exists k :: 0 <= k < |items| && items[k].s == p.0 && (items[k].token.None? || items[k].token.value == p.1)
  }

  /** What acting on a job leaves of it. */
  ghost predicate ActedOn(q: Queue, act: Act, q1: Queue, s: nat) {
    match act
    case Ack => s !in q1.leases && s !in q1.deliveries && (s in q1.reclaim <==> s in q.reclaim)
    case Nack(Some(t)) => s !in q1.leases && s in q1.delayed && q1.delayed[s] == t
    case Nack(None) => s !in q1.leases && s in q1.reclaim
    case Extend(d) => s in q.leases && s in q1.leases && q1.leases[s] == q.leases[s].(deadline := d)
  }

  /** Nothing happened to the job. */
  ghost predicate Untouched(q: Queue, q1: Queue, s: nat) {
    && (s in q1.leases <==> s in q.leases) && (s in q.leases ==> q1.leases[s] == q.leases[s])
    && (s in q1.delayed <==> s in q.delayed) && (s in q.delayed ==> q1.delayed[s] == q.delayed[s])
    && (s in q1.reclaim <==> s in q.reclaim) && Delivered(q1, s) == Delivered(q, s)
  }

  ghost predicate Fate(q: Queue, act: Act, r: ActResult, s: nat) {
    if s in Firsts(r.acted) then ActedOn(q, act, r.q, s) else Untouched(q, r.q, s)
  }

  /** An item more keeps what was done to any job, and does as much to its own. */
  lemma {:induction false} EachFate(q: Queue, node: string, act: Act, items: seq<Item>, s: nat)
    ensures Fate(q, act, ActAll(q, node, act, items), s)
  {
    if items != [] {
      var rest, item := items[..|items| - 1], items[|items| - 1];
      EachFate(q, node, act, rest, s);
      var r := ActAll(q, node, act, rest);
      if Held(r.q, node, item) { FirstsSnoc(r.acted, (item.s, r.q.leases[item.s].id)); }
    }
  }

  ghost predicate AllEntitled(q: Queue, node: string, items: seq<Item>, acted: seq<(nat, nat)>) {
    forall i :: 0 <= i < |acted| ==> Entitled(q, node, items, acted[i])
  }

  lemma EntitledStays(q: Queue, node: string, items: seq<Item>, item: Item, p: (nat, nat))
    requires Entitled(q, node, items, p)
    ensures Entitled(q, node, items + [item], p)
  {
    var k :| 0 <= k < |items| && items[k].s == p.0 && (items[k].token.None? || items[k].token.value == p.1);
    assert (items + [item])[k] == items[k];
  }

  /** A job that is still leased is leased as it was, but for its deadline. */
  lemma LeaseStays(q: Queue, act: Act, r: ActResult, s: nat)
    requires Fate(q, act, r, s) && s in r.q.leases
    ensures s in q.leases && r.q.leases[s] == q.leases[s].(deadline := r.q.leases[s].deadline)
  {
  }

  lemma {:induction false} ActedAreEntitled(q: Queue, node: string, act: Act, items: seq<Item>)
    ensures AllEntitled(q, node, items, ActAll(q, node, act, items).acted)
  {
    if items != [] {
      var n := |items| - 1;
      var rest, item := items[..n], items[n];
      ActedAreEntitled(q, node, act, rest);
      var r := ActAll(q, node, act, rest);
      assert items == rest + [item];
      forall i | 0 <= i < |r.acted| ensures Entitled(q, node, items, r.acted[i]) {
        EntitledStays(q, node, rest, item, r.acted[i]);
      }
      if Held(r.q, node, item) {
        EachFate(q, node, act, rest, item.s);
        LeaseStays(q, act, r, item.s);
        assert items[n].s == item.s;
      }
    }
  }

  /** A job the node holds as an item says is acted on; any other is skipped. */
  ghost predicate Answered(q: Queue, node: string, item: Item, r: ActResult) {
    if Held(q, node, item) then item.s in Firsts(r.acted) else item.s in r.skipped
  }

  lemma HeldOrActed(q: Queue, node: string, act: Act, r: ActResult, item: Item)
    requires Fate(q, act, r, item.s)
    ensures Held(r.q, node, item) ==> Held(q, node, item)
    ensures Held(q, node, item) && !Held(r.q, node, item) ==> item.s in Firsts(r.acted)
  {
  }

  lemma {:induction false} ActsExactlyOnHeld(q: Queue, node: string, act: Act, items: seq<Item>, k: nat)
    requires k < |items|
    ensures Answered(q, node, items[k], ActAll(q, node, act, items))
  {
    var n := |items| - 1;
    var rest, item := items[..n], items[n];
    var r := ActAll(q, node, act, rest);
    if Held(r.q, node, item) { FirstsSnoc(r.acted, (item.s, r.q.leases[item.s].id)); }
    if k < n {
      ActsExactlyOnHeld(q, node, act, rest, k);
    } else {
      EachFate(q, node, act, rest, item.s);
      HeldOrActed(q, node, act, r, item);
    }
  }

  // ---- delays and disconnects -----------------------------------------------

  /** Swept at any time from `t0` on the job can be claimed, and at none before. */
  ghost predicate FreeFrom(w: World, s: nat, t0: int) {
    forall t :: s in Claimable(Do(w, SweepAt(t))) <==> t0 <= t
  }

  /** A delayed job can be claimed from its time on, and not before. */
  lemma ClaimableFrom(w: World, s: nat, t: int)
    requires Conserved(w) && s in w.jobs.live && s in w.q.delayed
    ensures s in Claimable(Do(w, SweepAt(t))) <==> w.q.delayed[s] <= t
  {
    assert PlacedAt(w, s);
  }

  /** A leased job can be claimed once its deadline is past, and not before. */
  lemma ReclaimableAfter(w: World, s: nat, t: int)
    requires Conserved(w) && s in w.jobs.live && s in w.q.leases
    ensures s in Claimable(Do(w, SweepAt(t))) <==> w.q.leases[s].deadline < t
  {
    assert PlacedAt(w, s);
  }

  /** A closed connection's jobs can be claimed at once; all other leases stay. */
  lemma DisconnectFreesExactly(w: World, conn: nat, s: nat)
    requires Conserved(w) && s in w.q.leases
    ensures var w1 := Do(w, Disconnect(conn));
            if w.q.leases[s].conn == Some(conn) then s !in w1.q.leases && (s in w.jobs.live ==> s in Claimable(w1))
            else s in w1.q.leases && w1.q.leases[s] == w.q.leases[s] && s !in Claimable(w1)
  {
    assert PlacedAt(w, s);
  }

  // ---- jobs that come and go ------------------------------------------------

  /** Appended jobs can be claimed, but for the rolled-back ones. */
  lemma AppendedAreClaimable(w: World, n: nat, dead: set<nat>, s: nat)
    requires Conserved(w)
    ensures s in Claimable(Do(w, Append(n, dead))) <==>
            s in Claimable(w) || (w.jobs.head < s <= w.jobs.head + n && s !in dead)
  {
    assert PlacedAt(w, s);
  }

  /** Removed jobs cannot be claimed. */
  lemma RemovedAreNot(w: World, gone: set<nat>, s: nat)
    ensures s in Claimable(Do(w, Remove(gone))) <==> s in Claimable(w) && s !in gone
  {
  }

  // ---- settled deletes ------------------------------------------------------

  /** The outcomes of a batch of durable deletes: those in `landed` are gone, the rest re-queued. */
  function SettleOps(seqs: seq<nat>, landed: set<nat>): seq<Op> {
    if seqs == [] then [] else
    var n := |seqs| - 1;
    SettleOps(seqs[..n], landed) + [if seqs[n] in landed then DeleteOk(seqs[n]) else DeleteFail(seqs[n])]
  }

  /** Distinct jobs, each with its delete in flight. */
  ghost predicate InFlight(seqs: seq<nat>, limbo: set<nat>) {
    && (forall i :: 0 <= i < |seqs| ==> seqs[i] in limbo)
    && (forall i, j :: 0 <= i < j < |seqs| ==> seqs[i] != seqs[j])
  }

  /** Landed deletes take their jobs out of the log, failed ones put them on the freelist, and
      nothing else changes. */
  ghost predicate Settled(w: World, seqs: seq<nat>, landed: set<nat>, w1: World) {
    && w1.jobs.head == w.jobs.head && w1.q == w.q.(reclaim := w1.q.reclaim) && w1.issued == w.issued
    && (forall s: nat :: s in w1.jobs.live <==> s in w.jobs.live && !(s in seqs && s in landed))
    && (forall s: nat :: s in w1.q.reclaim <==> s in w.q.reclaim || (s in seqs && s !in landed))
    && (forall s: nat :: s in Limbo(w1) <==> s in Limbo(w) && s !in seqs)
  }

  lemma SettleOne(w: World, seqs: seq<nat>, landed: set<nat>, w1: World, s: nat, w2: World)
    requires Settled(w, seqs, landed, w1) && s in Limbo(w) && s !in seqs
    requires w2 == Do(w1, if s in landed then DeleteOk(s) else DeleteFail(s))
    ensures Settled(w, seqs + [s], landed, w2)
  {
  }

  lemma {:induction false} SettlesExactly(w: World, seqs: seq<nat>, landed: set<nat>)
    requires InFlight(seqs, Limbo(w))
    ensures Settled(w, seqs, landed, Run(w, SettleOps(seqs, landed)))
  {
    if seqs != [] {
      var n := |seqs| - 1;
      var ops, op := SettleOps(seqs[..n], landed), if seqs[n] in landed then DeleteOk(seqs[n]) else DeleteFail(seqs[n]);
      SettlesExactly(w, seqs[..n], landed);
      RunSnoc(w, ops, op);
      SettleOne(w, seqs[..n], landed, Run(w, ops), seqs[n], Do(Run(w, ops), op));
      assert seqs == seqs[..n] + [seqs[n]];
    }
  }
}
