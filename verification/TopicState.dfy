/** The topic index as the engine keeps it, updated in place: staging, rollback, publish,
    delete, snapshots and recovery (`src/engine/topic_state.rs`, `src/engine/snapshot.rs`,
    `replay_frame` in `src/engine/recovery.rs`). A publish turn computes the turn of the write
    path's run model or of the reservation's, and recovery computes the recovery both speak
    about. */
module TopicState {
  import opened Common
  import opened TopicLog
  import opened TopicSnapshot
  import W = WritePath
  import D = DiskReserve

  class TopicIndex {
    const base: nat
    var records: seq<Slot>
    var head: int
    var reserved: int
    var evictFloor: nat
    var expiryFloor: nat
    var deleteBelow: nat
    var first: nat

    ghost function View(): Index
      reads this
    {
      Index(base, records, head, reserved)
    }

    constructor (seqBase: nat)
      ensures base == seqBase && View() == Index(seqBase, [], seqBase - 1, seqBase - 1)
      ensures evictFloor == expiryFloor == deleteBelow == first == 0 && Valid()
    {
      base, records, head, reserved := seqBase, [], seqBase - 1, seqBase - 1;
      evictFloor, expiryFloor, deleteBelow, first := 0, 0, 0, 0;
    }

    /** The slots below `first` are reclaimed: they stay as holes here. */
    ghost predicate Valid()
      reads this
    {
      DeadFront(records, first)
    }

    /** No live record has a seq below `s`. */
    ghost predicate Cleared(slots: seq<Slot>, s: nat) {
      forall i :: 0 <= i < |slots| && base + i < s ==> slots[i].Hole?
    }

    /** The index holds the slots and the head of a write path. */
    ghost predicate Holds(w: W.World)
      reads this
    {
      w.base == base && w.slots == records && head == base + w.visible - 1
    }

    /** The index holds the slots, the head and the ceiling of a reservation. */
    ghost predicate HoldsDisk(w: D.World)
      reads this
    {
      w.base == base && w.slots == records && w.head == head && w.reserved == reserved
    }

    /** Reclaim the run of dead slots at the front. */
    method ReclaimFront()
      requires Valid()
      modifies this`first
      ensures Valid() && old(first) <= first && (first < |records| ==> records[first].Live?)
    {
      while first < |records| && records[first].Hole?
        invariant DeadFront(records, first) && old(first) <= first
      {
        first := first + 1;
      }
    }

    /** Push the records at the tail of the index, invisible until the head moves. */
    method StageAppend(recs: seq<Rec>) returns (start: nat, preLen: nat)
      requires Valid()
      modifies this`records
      ensures Valid()
      ensures preLen == |old(records)| && start == base + preLen
      ensures records == old(records) + W.Lives(recs)
    {
      preLen := |records|;
      start := base + preLen;
      for i := 0 to |recs|
        invariant records == old(records) + W.Lives(recs[..i])
      {
        assert recs[..i + 1][..i] == recs[..i];
        assert W.Lives(recs[..i + 1]) == W.Lives(recs[..i]) + [Live(recs[i])];
        records := records + [Live(recs[i])];
      }
      assert recs[..|recs|] == recs;
    }

    /** Undo a staged batch that was never enqueued: truncate the tail. */
    method RollbackStaged(preLen: nat)
      requires Valid() && first <= preLen <= |records|
      modifies this`records
      ensures Valid() && records == old(records)[..preLen]
    {
      while |records| > preLen
        invariant preLen <= |records| <= |old(records)| && records == old(records)[..|records|]
      {
        records := records[..|records| - 1];
      }
    }

    /** Mark a staged batch deleted in place: later batches may lie behind it. */
    method RollbackStagedBySeqs(start: nat, count: nat)
      requires Valid() && base <= start && start - base + count <= |records|
      modifies this`records
      ensures Valid() && records == W.Blank(old(records), start - base, start - base + count)
    {
      for i := 0 to count
        invariant |records| == |old(records)| && records == W.Blank(old(records), start - base, start - base + i)
      {
        records := records[start - base + i := Hole];
      }
    }

    /** Make a staged batch visible. */
    method PublishStaged(start: nat, count: nat)
      requires count > 0
      modifies this`head
      ensures head == start + count - 1
    {
      head := start + count - 1;
    }

    /** Delete what the selector picks, report it, and reclaim the dead front. A delete without a
        filter clears a whole prefix, so nothing below it is live any more. */
    method ApplyDelete(sel: Selector) returns (deleted: set<nat>)
      requires Valid()
      modifies this`records, this`deleteBelow, this`first
      ensures Valid() && old(first) <= first && (first < |records| ==> records[first].Live?)
      ensures deleteBelow == if sel.filter.Some? || sel.before.None? then old(deleteBelow)
                             else Max(old(deleteBelow), Min(sel.before.value, sel.bound))
      ensures Cleared(old(records), old(deleteBelow)) ==> Cleared(records, deleteBelow)
      ensures records == Erase(base, old(records), sel)
      ensures forall i :: 0 <= i < |records| ==> (base + i in deleted <==> Picks(sel, base + i, old(records)[i]))
      ensures forall s :: s in deleted ==> base <= s < base + |records| && s < sel.bound
    {
      deleted := {};
      var i := 0;
      while i < |records| && base + i < sel.bound
        invariant 0 <= i <= |records| == |old(records)| && deleteBelow == old(deleteBelow) && first == old(first)
        invariant forall k :: 0 <= k < i ==>
                  records[k] == if Picks(sel, base + k, old(records)[k]) then Hole else old(records)[k]
        invariant forall k :: i <= k < |records| ==> records[k] == old(records)[k]
        invariant forall k :: 0 <= k < i ==> (base + k in deleted <==> Picks(sel, base + k, old(records)[k]))
        invariant forall s :: s in deleted ==> base <= s < base + i && s < sel.bound
      {
        if Picks(sel, base + i, records[i]) {
          records := records[i := Hole];
          deleted := deleted + {base + i};
        }
        i := i + 1;
      }
      if sel.filter.None? && sel.before.Some? && Min(sel.before.value, sel.bound) > deleteBelow {
        deleteBelow := Min(sel.before.value, sel.bound);
      }
      ReclaimFront();
    }

    method DeleteSeqs(seqs: set<nat>)
      requires Valid()
      modifies this`records, this`first
      ensures Valid() && old(first) <= first && (first < |records| ==> records[first].Live?)
      ensures records == EraseSeqs(base, old(records), seqs)
    {
      var left := seqs;
      while left != {}
        invariant left <= seqs && records == EraseSeqs(base, old(records), seqs - left) && first == old(first)
      {
        var s :| s in left;
        left := left - {s};
        if base <= s < base + |records| {
          records := records[s - base := Hole];
        }
      }
      assert seqs - {} == seqs;
      ReclaimFront();
    }

    /** Pad the tail with holes up to `end`. */
    method PadTo(end: int)
      requires Valid()
      modifies this`records
      ensures Valid() && records == old(records) + Holes(Max(end - (base + |old(records)|), 0))
    {
      while base + |records| < end
        invariant |old(records)| <= |records| && (|records| > |old(records)| ==> base + |records| <= end)
        invariant records == old(records) + Holes(|records| - |old(records)|)
        decreases end - |records|
      {
        records := records + [Hole];
      }
    }

    /** Pad reserved but unwritten seqs as holes and move the head to the reservation. */
    method RestoreHeadWatermark(ceiling: int)
      requires Valid()
      modifies this`records, this`head, this`reserved
      ensures Valid()
      ensures reserved == Max(old(reserved), ceiling) && head == Max(old(head), ceiling)
      ensures records == if ceiling <= old(head) then old(records)
                         else old(records) + Holes(Max(ceiling + 1 - (base + |old(records)|), 0))
    {
      reserved := Max(reserved, ceiling);
      if ceiling <= head {
        return;
      }
      PadTo(ceiling + 1);
      head := ceiling;
    }

    /** The publish turn of an fsync topic: publish or delete what the WAL committed, roll back
        what it did not. */
    method Turn(d: W.Decided, ghost w: W.World)
      requires Valid() && Holds(w) && W.InSlots(w, d.work) && (d.work.Batch? ==> d.work.recs != [])
      modifies this
      ensures Valid() && Holds(W.TurnOf(w, d))
    {
      match d.work {
        case Batch(start, recs) =>
          if d.ok {
            PublishStaged(start, |recs|);
          } else {
            RollbackStagedBySeqs(start, |recs|);
          }
        case Del(sel) =>
          if d.ok {
            var deleted := ApplyDelete(sel);
          }
      }
    }

    /** The publish turn of a disk topic: the head is reserved before it moves, or the batch is
        rolled back. */
    method DiskTurn(work: W.Work, committed: bool, syncOk: bool, ghost w: D.World) returns (logged: Option<Frame>)
      requires Valid() && HoldsDisk(w) && work.Batch? && D.Fits(w, work)
      modifies this
      ensures Valid() && HoldsDisk(D.PublishTurn(w, work, committed, syncOk))
      ensures D.PublishTurn(w, work, committed, syncOk).log == w.log + (if logged.Some? then [logged.value] else [])
      ensures var last, lo := work.start + |work.recs| - 1, work.start - base;
              if committed && (last < old(reserved) || syncOk)
              then head == last < reserved && records == old(records)
              else && head == old(head) && |records| == |old(records)|
                   && forall i :: 0 <= i < |records| ==>
                        records[i] == if lo <= i < lo + |work.recs| then Hole else old(records)[i]
    {
      logged := None;
      var n := |work.recs|;
      if committed {
        var ok;
        ok, logged := EnsureDiskHeadReserved(work.start + n - 1, syncOk, w);
        if ok {
          PublishStaged(work.start, n);
          return;
        }
      }
      RollbackStagedBySeqs(work.start, n);
    }

    /** Make sure a durable ceiling lies strictly above `last` before it is published: past the
        ceiling, sync a watermark a block ahead. Returns the frame it logged. */
    method EnsureDiskHeadReserved(last: nat, syncOk: bool, ghost w: D.World) returns (ok: bool, logged: Option<Frame>)
      requires HoldsDisk(w)
      modifies this`reserved
      ensures ok <==> last < old(reserved) || syncOk
      ensures ok ==> last < reserved
      ensures HoldsDisk(D.Reserve(w, last, syncOk))
      ensures D.Reserve(w, last, syncOk).log == w.log + (if logged.Some? then [logged.value] else [])
    {
      if last < reserved {
        return true, None;
      }
      var target := Max(last, reserved) + D.RESERVE_AHEAD;
      if !syncOk {
        return false, None;
      }
      reserved := target;
      return true, Some(HeadWatermark(target));
    }

    /** Apply one replayed frame. */
    method ReplayFrame(f: Frame)
      requires Valid()
      modifies this
      ensures Valid() && View() == Take(old(View()), f)
      ensures evictFloor == (if f.EvictWatermark? then Max(old(evictFloor), f.evict) else old(evictFloor))
      ensures expiryFloor == (if f.EvictWatermark? then Max(old(expiryFloor), f.expiry) else old(expiryFloor))
    {
      match f {
        case Append(s, rec) =>
          if s <= head {
            return;
          }
          if s != head + 1 {
            return;
          }
          var start, preLen := StageAppend([rec]);
          assert W.Lives([rec]) == [Live(rec)];
          PublishStaged(start, 1);
        case Delete(sel) =>
          var deleted := ApplyDelete(sel);
        case DeleteSeqs(seqs) =>
          DeleteSeqs(seqs);
        case EvictWatermark(evict, expiry) =>
          if evict > evictFloor { evictFloor := evict; }
          if expiry > expiryFloor { expiryFloor := expiry; }
        case HeadWatermark(h) =>
          reserved := Max(reserved, h);
      }
    }

    /** The live published records, with how far the front is reclaimed and where the head is. */
    method CaptureTopic() returns (m: Image)
      requires Valid()
      ensures m == Capture(old(View()), first) && View() == old(View())
    {
      var live := [];
      var i := first;
      while i < |records| && base + i <= head
        invariant first <= i <= |records| && live == LiveOf(base, records, first, i)
        invariant i > first ==> base + i - 1 <= head
      {
        if records[i].Live? {
          live := live + [Entry(base + i, records[i].rec)];
        }
        i := i + 1;
      }
      LiveOfPast(base, records, first, i, Published(View()));
      m := Image(base, first, live, head);
    }

    /** Rebuild the index from a snapshot: every record at its seq, holes between them. */
    method RestoreTopic(m: Image)
      requires m.base == base && Ascending(m)
      modifies this
      ensures Valid() && first == m.front && View() == Restore(m)
    {
      records, head, reserved, first := [], m.head, m.head, 0;
      PadTo(base + m.front);
      first := m.front;
      assert records == Holes(m.front);
      for i := 0 to |m.live|
        invariant head == reserved == m.head && first == m.front && Refilled(m, i, records)
      {
        RefillNext(m, i, records);
        PadTo(m.live[i].s);
        records := records + [Live(m.live[i].rec)];
      }
      assert m.live[..|m.live|] == m.live;
    }

    /** Replay a log on the index, then reconcile the reservation. */
    method ReplayLog(log: seq<Frame>)
      requires Valid()
      modifies this
      ensures Valid() && View() == Reconcile(TakeAll(old(View()), log))
    {
      for i := 0 to |log|
        invariant Valid() && View() == TakeAll(old(View()), log[..i])
      {
        assert log[..i + 1][..i] == log[..i];
        ReplayFrame(log[i]);
      }
      assert log[..|log|] == log;
      if reserved > head {
        RestoreHeadWatermark(reserved);
      }
    }

    /** Recovery: the last snapshot, then the log behind it. */
    method Recover(m: Image, log: seq<Frame>, from: nat)
      requires m.base == base && Ascending(m) && from <= |log|
      modifies this
      ensures Valid() && View() == W.Recover(m, log, from)
    {
      RestoreTopic(m);
      ReplayLog(log[from..]);
    }
  }

  /** The first `i` records of an image are back at their seqs. */
  ghost predicate Refilled(m: Image, i: nat, records: seq<Slot>)
    requires i <= |m.live|
  {
    && records == Refill(m.base, Holes(m.front), m.live[..i]) && DeadFront(records, m.front)
    && m.base + |records| == if i == 0 then m.base + m.front else m.live[i - 1].s + 1
  }

  lemma RefillNext(m: Image, i: nat, records: seq<Slot>)
    requires Ascending(m) && i < |m.live| && Refilled(m, i, records)
    ensures Refilled(m, i + 1, records + Holes(Max(m.live[i].s - (m.base + |records|), 0)) + [Live(m.live[i].rec)])
  {
    assert m.live[..i + 1] == m.live[..i] + [m.live[i]];
    RefillSnoc(m.base, Holes(m.front), m.live[..i], m.live[i]);
  }

  /** A write whose WAL enqueue fails leaves no trace. */
  method FailedEnqueue(t: TopicIndex, recs: seq<Rec>)
    requires t.Valid()
    modifies t
    ensures t.Valid() && t.View() == old(t.View()) && t.deleteBelow == old(t.deleteBelow) && t.first == old(t.first)
    ensures t.evictFloor == old(t.evictFloor) && t.expiryFloor == old(t.expiryFloor)
  {
    var start, preLen := t.StageAppend(recs);
    t.RollbackStaged(preLen);
  }
}
