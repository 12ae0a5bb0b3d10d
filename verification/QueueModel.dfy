/** The lease projection of a queue topic as a value: one definition per
    critical section of `src/engine/queue.rs`, over sets and maps instead of
    heaps. The class in `QueueProjection.dfy` is proved to compute these. */
module QueueModel {
  import opened Common

  const MAX_CLAIM: nat := 1000
  const MIN_LEASE_MS: int := 100
  const MAX_LEASE_MS: int := 86_400_000
  const MAX_NACK_DELAY_MS: int := 86_400_000

  /** An active lease: the job is reclaimable once `now > deadline`. */
  datatype Lease = Lease(node: string, id: nat, deadline: int, conn: Option<nat>)

  /** The jobs log as a claim pass reads it: the published head and the seqs
      whose record is present and not deleted. */
  datatype Jobs = Jobs(head: nat, live: set<nat>)

  datatype Queue = Queue(
    leases: map<nat, Lease>,
    deliveries: map<nat, nat>,
    reclaim: set<nat>,        // seqs on the reclaim freelist
    delayed: map<nat, int>,   // seq -> ready_at of a delayed nack
    cursor: nat,              // next never-leased seq
    deadLettered: nat,
    nextId: nat)

  /** The dead-letter settings of the topic. */
  datatype DeadLetterPolicy = DeadLetterPolicy(maxDeliveries: nat, hasTopic: bool)

  function New(seqBase: nat): Queue {
    Queue(map[], map[], {}, map[], seqBase, 0, 1)
  }

  // ---- sweep, claim ---------------------------------------------------------

  function DueSeqs(delayed: map<nat, int>, now: int): set<nat> {
    set s | s in delayed && delayed[s] <= now
  }

  function ExpiredSeqs(leases: map<nat, Lease>, now: int): set<nat> {
    set s | s in leases && now > leases[s].deadline
  }

  /** Elapsed delayed nacks and expired leases move to the freelist. */
  function Sweep(q: Queue, now: int): Queue {
    var due, expired := DueSeqs(q.delayed, now), ExpiredSeqs(q.leases, now);
    q.(leases := q.leases - expired,
       delayed := q.delayed - due,
       reclaim := q.reclaim + (due - q.leases.Keys) + expired)
  }

  /** Nothing left for a sweep at `now` to do. */
  ghost predicate Swept(q: Queue, now: int) {
    && (forall s :: s in q.delayed ==> now < q.delayed[s])
    && (forall s :: s in q.leases ==> now <= q.leases[s].deadline)
  }

  /** Freelist entries a pop may return: live and not leased. */
  function Poppable(q: Queue, jobs: Jobs): set<nat> {
    set s | s in q.reclaim && s !in q.leases && s in jobs.live
  }

  /** Never-leased live jobs from the claim cursor up to head. */
  function FreshSeqs(q: Queue, jobs: Jobs): set<nat> {
    set s | s in jobs.live && q.cursor <= s <= jobs.head && s !in q.leases
  }

  /** Freelist first, then the claim cursor; dead entries are dropped on the way. */
  ghost function NextClaimable(q: Queue, jobs: Jobs): (r: (Queue, Option<nat>)) {
    var pop, unclaimed := Poppable(q, jobs), FreshSeqs(q, jobs);
    if pop != {} then
      var m := MinOf(pop);
      (q.(reclaim := set s | s in q.reclaim && m < s), Some(m))
    else if unclaimed != {} then
      var m := MinOf(unclaimed);
      (q.(reclaim := {}, cursor := m + 1), Some(m))
    else
      (q.(reclaim := {}, cursor := if q.cursor <= jobs.head then jobs.head + 1 else q.cursor), None)
  }

  function Delivered(q: Queue, s: nat): nat {
    if s in q.deliveries then q.deliveries[s] else 0
  }

  /** The next delivery of `s` would exceed the policy's limit. */
  predicate Poison(q: Queue, s: nat, dl: DeadLetterPolicy) {
    dl.maxDeliveries > 0 && Delivered(q, s) + 1 > dl.maxDeliveries && dl.hasTopic
  }

  function LeaseTo(q: Queue, s: nat, node: string, conn: Option<nat>, deadline: int): Queue {
    q.(nextId := q.nextId + 1,
       deliveries := q.deliveries[s := Delivered(q, s) + 1],
       leases := q.leases[s := Lease(node, q.nextId, deadline, conn)])
  }

  function Divert(q: Queue, s: nat): Queue {
    q.(deliveries := q.deliveries - {s}, deadLettered := q.deadLettered + 1)
  }

  // ---- ack / nack / extend / disconnect -------------------------------------

  /** What a worker asks for on each job it names. */
  datatype Act = Ack | Nack(readyAt: Option<int>) | Extend(deadline: int)

  /** A job seq with its optional fencing token. */
  datatype Item = Item(s: nat, token: Option<nat>)

  /** `node` holds the job under the token, or under any lease when none is given. */
  predicate Held(q: Queue, node: string, item: Item) {
    && item.s in q.leases
    && q.leases[item.s].node == node
    && (item.token.None? || item.token.value == q.leases[item.s].id)
  }

  function PushReclaim(q: Queue, s: nat): Queue {
    q.(reclaim := q.reclaim + {s})
  }

  function Effect(q: Queue, act: Act, s: nat): Queue
    requires s in q.leases
  {
    match act
    case Ack => q.(leases := q.leases - {s}, deliveries := q.deliveries - {s})
    case Nack(Some(r)) => q.(leases := q.leases - {s}, delayed := q.delayed[s := r])
    case Nack(None) => PushReclaim(q.(leases := q.leases - {s}), s)
    case Extend(d) => q.(leases := q.leases[s := q.leases[s].(deadline := d)])
  }

  datatype ActResult = ActResult(q: Queue, acted: seq<(nat, nat)>, skipped: seq<nat>)

  /** The items in request order; a job not held is skipped. */
  function ActAll(q: Queue, node: string, act: Act, items: seq<Item>): ActResult {
    if items == [] then ActResult(q, [], []) else
    var r, item := ActAll(q, node, act, items[..|items| - 1]), items[|items| - 1];
    if Held(r.q, node, item) then
      ActResult(Effect(r.q, act, item.s), r.acted + [(item.s, r.q.leases[item.s].id)], r.skipped)
    else
      r.(skipped := r.skipped + [item.s])
  }

  function ConnSeqs(q: Queue, conn: nat): set<nat> {
    set s | s in q.leases && q.leases[s].conn == Some(conn)
  }

  function Release(q: Queue, conn: nat): Queue {
    q.(leases := q.leases - ConnSeqs(q, conn), reclaim := q.reclaim + ConnSeqs(q, conn))
  }

  // ---- facts about a sweep --------------------------------------------------

  lemma SweepSweeps(q: Queue, now: int)
    ensures Swept(Sweep(q, now), now)
  {
  }

  lemma SweptSweepIsIdentity(q: Queue, now: int)
    requires Swept(q, now)
    ensures Sweep(q, now) == q
  {
    assert DueSeqs(q.delayed, now) == {} && ExpiredSeqs(q.leases, now) == {};
    assert q.leases - {} == q.leases && q.delayed - {} == q.delayed;
    assert q.reclaim + ({} - q.leases.Keys) + {} == q.reclaim;
  }
}
