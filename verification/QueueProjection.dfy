/** The lease projection as the engine keeps it: a lease map, a reclaim min-heap with
    its membership set, a min-heap of delayed nacks and a claim cursor, all updated
    in place. The reclaim `BinaryHeap` is the multiset of its entries, and popping takes
    the least; the delayed heap maps each delayed job to its `ready_at`, since no job is
    ever delayed twice (the precondition of `PushDelayed`). */
module QueueProjection {
  import opened Common
  import Q = QueueModel

  /** A nonempty table of delayed nacks has an earliest entry. */
  lemma {:induction false} EarliestKey(readyAt: map<nat, int>, keys: set<nat>) returns (k: nat)
    requires keys != {} && keys <= readyAt.Keys
    ensures k in keys && forall s :: s in keys ==> readyAt[k] <= readyAt[s]
    decreases keys
  {
    var y :| y in keys;
    assert keys == (keys - {y}) + {y};
    if keys - {y} == {} {
      k := y;
    } else {
      var k' := EarliestKey(readyAt, keys - {y});
      k := if readyAt[k'] <= readyAt[y] then k' else y;
      forall s | s in keys ensures readyAt[k] <= readyAt[s] { if s != y { assert s in keys - {y}; } }
    }
  }

  /** The heap holds each member of the set once, and nothing else. */
  ghost predicate HeapOf(heap: multiset<nat>, members: set<nat>) {
    forall s: nat :: heap[s] == if s in members then 1 else 0
  }

  lemma HeapMembers(heap: multiset<nat>, members: set<nat>)
    requires HeapOf(heap, members)
    ensures forall s :: s in heap <==> s in members
    ensures heap == multiset{} <==> members == {}
  {
    forall s: nat ensures s in heap <==> s in members { assert heap[s] == if s in members then 1 else 0; }
    if heap != multiset{} { var s :| s in heap; assert s in members; }
  }

  lemma HeapPop(heap: multiset<nat>, members: set<nat>, s: nat)
    requires HeapOf(heap, members) && s in members
    ensures HeapOf(heap - multiset{s}, members - {s})
  {
  }

  /** `BinaryHeap::pop` of a nonempty min-heap. */
  method PopLeast(heap: multiset<nat>, ghost members: set<nat>) returns (least: nat, rest: multiset<nat>)
    requires HeapOf(heap, members) && members != {}
    ensures least in members && (forall s :: s in members ==> least <= s)
    ensures HeapOf(rest, members - {least})
  {
    HeapMembers(heap, members);
    ghost var m := LeastElement(members);
    least :| least in heap && forall s :: s in heap ==> least <= s;
    HeapPop(heap, members, least);
    rest := heap - multiset{least};
  }

  class Projection {
    var leases: map<nat, Q.Lease>
    var deliveries: map<nat, nat>
    var reclaim: multiset<nat>
    var delayed: map<nat, int>
    var claimCursor: nat
    var deadLettered: nat
    var nextLeaseId: nat
    var inReclaim: set<nat>

    /** The reclaim heap holds no seq twice, and exactly the membership set. */
    ghost predicate Valid()
      reads this
    {
      HeapOf(reclaim, inReclaim)
    }

    ghost function View(): Q.Queue
      reads this
    {
      Q.Queue(leases, deliveries, inReclaim, delayed, claimCursor, deadLettered, nextLeaseId)
    }

    constructor (seqBase: nat)
      ensures Valid() && View() == Q.New(seqBase)
    {
      leases, deliveries, reclaim, delayed := map[], map[], multiset{}, map[];
      claimCursor, deadLettered, nextLeaseId, inReclaim := seqBase, 0, 1, {};
    }

    method AllocLeaseId() returns (id: nat)
      modifies this`nextLeaseId
      ensures id == old(nextLeaseId) && nextLeaseId == id + 1
    {
      id := nextLeaseId;
      nextLeaseId := nextLeaseId + 1;
    }

    method PushReclaim(s: nat)
      requires Valid()
      modifies this`reclaim, this`inReclaim
      ensures Valid() && View() == Q.PushReclaim(old(View()), s)
    {
      if s !in inReclaim {
        inReclaim := inReclaim + {s};
        reclaim := reclaim + multiset{s};
      }
    }

    method PopReclaim() returns (r: Option<nat>)
      requires Valid()
      modifies this`reclaim, this`inReclaim
      ensures Valid()
      ensures r == if old(inReclaim) == {} then None else Some(MinOf(old(inReclaim)))
      ensures inReclaim == if r.None? then {} else old(inReclaim) - {r.value}
    {
      if inReclaim == {} {
        return None;
      }
      var least, rest := PopLeast(reclaim, inReclaim);
      assert least == MinOf(inReclaim);
      reclaim, inReclaim := rest, inReclaim - {least};
      r := Some(least);
    }

    method PushDelayed(readyAtMs: int, s: nat)
      requires Valid() && s !in delayed
      modifies this`delayed
      ensures delayed == old(delayed)[s := readyAtMs]
    {
      delayed := delayed[s := readyAtMs];
    }

    /** Pop the earliest delayed nack if its `ready_at` has elapsed. */
    method PopDue(nowMs: int) returns (r: Option<nat>)
      modifies this`delayed
      ensures r.None? ==> delayed == old(delayed) && forall s :: s in delayed ==> nowMs < delayed[s]
      ensures r.Some? ==>
              r.value in old(delayed) && old(delayed)[r.value] <= nowMs && delayed == old(delayed) - {r.value}
    {
      if delayed == map[] {
        return None;
      }
      ghost var k := EarliestKey(delayed, delayed.Keys);
      var top :| top in delayed && forall s :: s in delayed ==> delayed[top] <= delayed[s];
      if delayed[top] > nowMs {
        return None;
      }
      delayed := delayed - {top};
      r := Some(top);
    }

    /** Pop every delayed nack whose `ready_at` has elapsed onto the freelist. */
    method SweepDelayed(nowMs: int)
      requires Valid()
      modifies this`delayed, this`reclaim, this`inReclaim
      ensures Valid()
      ensures delayed == old(delayed) - Q.DueSeqs(old(delayed), nowMs)
      ensures inReclaim == old(inReclaim) + (Q.DueSeqs(old(delayed), nowMs) - leases.Keys)
    {
      ghost var was, pushed := delayed, {};
      var top := PopDue(nowMs);
      while top.Some?
        invariant Valid()
        invariant forall s :: s in delayed ==> s in was && delayed[s] == was[s]
        invariant top.Some? ==> top.value in was && top.value !in delayed && was[top.value] <= nowMs
        invariant top.None? ==> forall s :: s in delayed ==> nowMs < delayed[s]
        invariant forall s :: s in was && s !in delayed ==>
                  was[s] <= nowMs && (s in pushed || s in leases || top == Some(s))
        invariant forall s :: s in pushed ==> s in was && s !in delayed && s !in leases
        invariant inReclaim == old(inReclaim) + pushed
        decreases delayed.Keys, top.Some?
      {
        if top.value !in leases {
          PushReclaim(top.value);
          pushed := pushed + {top.value};
        }
        top := PopDue(nowMs);
      }
      var due := Q.DueSeqs(was, nowMs);
      assert delayed == was - due;
      assert pushed == due - leases.Keys;
    }

    /** Drop every lease whose deadline has passed and put its job on the freelist. */
    method ExpireLeases(nowMs: int)
      requires Valid()
      modifies this`leases, this`reclaim, this`inReclaim
      ensures Valid()
      ensures leases == old(leases) - Q.ExpiredSeqs(old(leases), nowMs)
      ensures inReclaim == old(inReclaim) + Q.ExpiredSeqs(old(leases), nowMs)
    {
      ghost var was, done := leases, {};
      var expired := set s | s in leases && nowMs > leases[s].deadline;
      assert was - {} == was;
      while expired != {}
        invariant Valid() && done + expired == Q.ExpiredSeqs(old(leases), nowMs)
        invariant leases == was - done && inReclaim == old(inReclaim) + done
        decreases expired
      {
        var s :| s in expired;
        expired := expired - {s};
        leases := leases - {s};
        PushReclaim(s);
        MinusMinus(was, done, {s});
        done := done + {s};
      }
    }

    /** Elapsed delayed nacks, then expired leases, onto the freelist. */
    method SweepExpired(nowMs: int)
      requires Valid()
      modifies this`leases, this`delayed, this`reclaim, this`inReclaim
      ensures Valid() && View() == Q.Sweep(old(View()), nowMs)
    {
      SweepDelayed(nowMs);
      ExpireLeases(nowMs);
    }

    /** The lowest claimable seq: freelist first, then fresh seqs from the claim cursor. */
    method NextClaimable(jobs: Q.Jobs) returns (r: Option<nat>)
      requires Valid()
      modifies this`reclaim, this`inReclaim, this`claimCursor
      ensures Valid() && (View(), r) == Q.NextClaimable(old(View()), jobs)
    {
      ghost var was := View();
      r := PopLive(jobs);
      if r.Some? {
        assert View() == was.(reclaim := set s | s in was.reclaim && r.value < s);
        return;
      }
      while claimCursor <= jobs.head
        invariant Valid() && was.cursor <= claimCursor
        invariant claimCursor == was.cursor || claimCursor <= jobs.head + 1
        invariant View() == was.(reclaim := {}, cursor := claimCursor)
        invariant forall s :: was.cursor <= s < claimCursor ==> s !in Q.FreshSeqs(was, jobs)
      {
        var s := claimCursor;
        claimCursor := claimCursor + 1;
        if s !in leases && s in jobs.live {
          assert s in Q.FreshSeqs(was, jobs) && s == MinOf(Q.FreshSeqs(was, jobs));
          return Some(s);
        }
      }
      assert Q.FreshSeqs(was, jobs) == {};
    }

    /** Drain the freelist down to its lowest live, unleased seq. */
    method PopLive(jobs: Q.Jobs) returns (r: Option<nat>)
      requires Valid()
      modifies this`reclaim, this`inReclaim
      ensures Valid()
      ensures r == if Q.Poppable(old(View()), jobs) == {} then None else Some(MinOf(Q.Poppable(old(View()), jobs)))
      ensures inReclaim == if r.None? then {} else set s | s in old(inReclaim) && r.value < s
    {
      ghost var all, pop := inReclaim, Q.Poppable(View(), jobs);
      r := PopReclaim();
      while r.Some?
        invariant Valid() && inReclaim <= all
        invariant r.None? ==> inReclaim == {}
        invariant r.Some? ==>
                  r.value in all && r.value !in inReclaim && forall s :: s in all ==> (s in inReclaim <==> r.value < s)
        invariant forall s :: s in pop ==> s in inReclaim || r == Some(s)
        decreases inReclaim, r.Some?
      {
        if r.value !in leases && r.value in jobs.live {
          assert r.value in pop && r.value == MinOf(pop);
          return;
        }
        r := PopReclaim();
      }
      assert pop == {};
    }

    /** One job of an ack, nack or extend request; the id of the lease acted on, if held. */
    method ActOne(node: string, act: Q.Act, item: Q.Item) returns (id: Option<nat>)
      requires Valid() && (item.s in leases ==> item.s !in delayed)
      modifies this
      ensures Valid()
      ensures id == if Q.Held(old(View()), node, item) then Some(old(leases)[item.s].id) else None
      ensures View() == if id.Some? then Q.Effect(old(View()), act, item.s) else old(View())
    {
      var s := item.s;
      if s !in leases || leases[s].node != node || (item.token.Some? && item.token.value != leases[s].id) {
        return None;
      }
      id := Some(leases[s].id);
      match act {
        case Ack =>
          leases := leases - {s};
          deliveries := deliveries - {s};
        case Nack(Some(readyAt)) =>
          leases := leases - {s};
          PushDelayed(readyAt, s);
        case Nack(None) =>
          leases := leases - {s};
          PushReclaim(s);
        case Extend(d) =>
          leases := leases[s := leases[s].(deadline := d)];
      }
    }

    /** Lease `s` to a claimer under a fresh id. */
    method Lease(s: nat, node: string, conn: Option<nat>, deadline: int) returns (id: nat, delivery: nat)
      requires Valid()
      modifies this`leases, this`deliveries, this`nextLeaseId
      ensures Valid() && id == old(nextLeaseId) && delivery == Q.Delivered(old(View()), s) + 1
      ensures View() == Q.LeaseTo(old(View()), s, node, conn, deadline)
    {
      delivery := (if s in deliveries then deliveries[s] else 0) + 1;
      id := AllocLeaseId();
      deliveries := deliveries[s := delivery];
      leases := leases[s := Q.Lease.Lease(node, id, deadline, conn)];
    }

    /** Drop every lease of a closed connection and put its jobs on the freelist. */
    method ReleaseConn(conn: nat)
      requires Valid()
      modifies this`leases, this`reclaim, this`inReclaim
      ensures Valid() && View() == Q.Release(old(View()), conn)
    {
      ghost var was, done := leases, {};
      var seqs := set s | s in leases && leases[s].conn == Some(conn);
      assert was - {} == was;
      while seqs != {}
        invariant Valid() && done + seqs == Q.ConnSeqs(old(View()), conn)
        invariant leases == was - done && inReclaim == old(inReclaim) + done
        decreases seqs
      {
        var s :| s in seqs;
        seqs := seqs - {s};
        leases := leases - {s};
        PushReclaim(s);
        MinusMinus(was, done, {s});
        done := done + {s};
      }
    }
  }
}
