/** What every run of the write path keeps. */
module WriteRuns {
  import opened Common
  import opened TopicLog
  import opened TopicSnapshot
  import opened WritePath
  import opened IndexReplay

  // ---- the invariant --------------------------------------------------------

  function WorksOf(decided: seq<Decided>): seq<Work> {
    seq(|decided|, i requires 0 <= i < |decided| => decided[i].work)
  }

  /** The outstanding tickets in ticket order. */
  function Works(w: World): seq<Work> { WorksOf(w.decided) + w.pending }

  function Size(work: Work): nat { if work.Batch? then |work.recs| else 0 }

  /** The batches are consecutive from `next` up to `end`. */
  predicate Contiguous(works: seq<Work>, next: nat, end: nat) {
    if works == [] then next == end else
    && (works[0].Batch? ==> works[0].start == next && works[0].recs != [])
    && Contiguous(works[1..], next + Size(works[0]), end)
  }

  /** A staged batch sits in its slots; a delete is pinned at or below what is visible. */
  ghost predicate Placed(base: nat, slots: seq<Slot>, visible: nat, work: Work) {
    match work
    case Batch(start, recs) =>
      && base + visible <= start && start - base + |recs| <= |slots|
      && forall j :: start - base <= j < start - base + |recs| ==> slots[j] == Live(recs[j - (start - base)])
    case Del(sel) => sel.bound <= base + visible
  }

  ghost predicate AllPlaced(base: nat, slots: seq<Slot>, visible: nat, works: seq<Work>) {
    forall k :: 0 <= k < |works| ==> Placed(base, slots, visible, works[k])
  }

  /** The published slots show the applied frames; holes up to the staged batches. */
  ghost predicate Shows(base: nat, born: seq<Slot>, applied: seq<Frame>, slots: seq<Slot>, visible: nat, edge: nat) {
    && Climbs(base, born, applied)
    && visible == |Shown(base, born, applied)| && visible <= edge <= |slots|
    && (forall i :: 0 <= i < visible ==> slots[i] == Shown(base, born, applied)[i])
    && (forall i :: visible <= i < edge ==> slots[i] == Hole)
  }

  /** While the head is within the slots: the published slots show what was applied, staged
      batches sit behind them, and deletes on their way are pinned at or below them. */
  ghost predicate Shape(w: World) {
    && w.log == w.log0 + w.applied + OkFrames(w.decided)
    && Shows(w.base, w.born, w.applied, w.slots, w.visible, w.edge)
    && Contiguous(Works(w), w.base + w.edge, w.base + |w.slots|)
    && AllPlaced(w.base, w.slots, w.visible, Works(w))
  }

  /** The last snapshot or recovery left the head within the slots. */
  predicate Aligned(w: World) { w.head0 <= |w.born| }

  /** In any case: the durable log is what it was, what was applied since and what is committed;
      applied appends rise below the outstanding batches, which are consecutive. */
  ghost predicate Line(w: World) {
    && w.log == w.log0 + w.applied + OkFrames(w.decided)
    && |w.born| <= w.edge <= |w.slots| && |w.born| <= w.head0
    && Contiguous(Works(w), w.base + w.edge, w.base + |w.slots|)
    && Since(w.base + |w.born|, w.base + w.edge, w.base + w.visible, w.applied)
  }

  /** Appends and deletes only; the appends rise from `lo` on and below `hi` and `top`. */
  ghost predicate Since(lo: nat, hi: nat, top: nat, applied: seq<Frame>) {
    Plain(applied) && Rises(lo, hi, applied) && lo <= top && forall s :: s in Appended(applied) ==> s < top
  }

  /** The seqs behind `born` and below the outstanding batches were logged or rolled back. */
  ghost predicate RolledOk(lo: nat, hi: nat, applied: seq<Frame>, rolled: set<nat>) {
    forall x: nat :: x in rolled <==> lo <= x < hi && x !in Appended(applied)
  }

  /** A rolled-back seq is a hole. */
  ghost predicate Blanks(base: nat, slots: seq<Slot>, rolled: set<nat>) {
    forall x :: x in rolled && base <= x < base + |slots| ==> slots[x - base].Hole?
  }

  /** The slots published at the last snapshot or recovery are as they were, but for what applied
      deletes struck. */
  ghost predicate Erased(base: nat, born: seq<Slot>, applied: seq<Frame>, slots: seq<Slot>) {
    && |born| <= |slots|
    && forall i :: 0 <= i < |born| ==> slots[i] == if StruckBy(applied, base + i, born[i]) then Hole else born[i]
  }

  /** An acknowledged record is below the outstanding batches and not rolled back, it is there
      unless a delete struck it, and it was published by then or its frame was applied since. */
  ghost predicate AcksOk(base: nat, born: seq<Slot>, slots: seq<Slot>, edge: nat, applied: seq<Frame>,
      acked: map<nat, Rec>, rolled: set<nat>, doomed: set<nat>) {
    && edge <= |slots|
    && forall s :: s in acked ==>
                     && base <= s < base + edge && s !in rolled
                     && (s !in doomed ==> slots[s - base] == Live(acked[s]))
                     && (s >= base + |born| ==> Append(s, acked[s]) in applied)
  }

  /** A staged record is in its slot unless a delete struck it. */
  ghost predicate Staged(base: nat, slots: seq<Slot>, work: Work, doomed: set<nat>) {
    work.Batch? ==>
      forall i :: 0 <= i < |slots| && work.start <= base + i < work.start + |work.recs| ==>
        slots[i] == Live(work.recs[base + i - work.start]) || (slots[i].Hole? && base + i in doomed)
  }

  /** A live slot behind `born` and below the outstanding batches was logged under its seq. */
  ghost predicate Logged(base: nat, born: nat, edge: nat, applied: seq<Frame>, slots: seq<Slot>) {
    && edge <= |slots|
    && forall i :: born <= i < edge && slots[i].Live? ==> Append(base + i, slots[i].rec) in applied
  }

  ghost predicate AllStaged(base: nat, slots: seq<Slot>, works: seq<Work>, doomed: set<nat>) {
    forall k :: 0 <= k < |works| ==> Staged(base, slots, works[k], doomed)
  }

  ghost predicate Past(w: World) {
    && RolledOk(w.base + |w.born|, w.base + w.edge, w.applied, w.rolled)
    && Blanks(w.base, w.slots, w.rolled)
    && Erased(w.base, w.born, w.applied, w.slots)
    && AcksOk(w.base, w.born, w.slots, w.edge, w.applied, w.acked, w.rolled, w.doomed)
    && AllStaged(w.base, w.slots, Works(w), w.doomed)
    && Logged(w.base, |w.born|, w.edge, w.applied, w.slots)
  }

  /** What the snapshot and the log recovered to at the last snapshot or recovery. */
  function Ground(w: World): Index { TakeAll(Restore(w.image), Behind(w.log0, w.from)) }

  /** That topic ends where its head says, right behind the slots published then: appends behind
      it come back under their seqs. */
  predicate Continues(w: World) {
    var x := Ground(w);
    |x.slots| == |w.born| && Level(x) && x.reserved <= x.head
  }

  /** Its head lets in no append from then on. */
  ghost predicate Low(x: Index, born: nat, rolled: set<nat>) {
    && (x.head + 1 < x.base + born || (x.head + 1 == x.base + born && x.base + born in rolled))
    && x.reserved + 1 <= x.base + born
    && forall s: nat :: x.base + born <= s < x.base + |x.slots| ==> s in rolled
  }

  /** Its slots end below its head: one append may be let in, and lands on a lower seq. */
  ghost predicate Short(x: Index, born: nat) {
    x.base + |x.slots| <= x.head && x.base + born <= x.head + 1 && |x.slots| <= born && x.reserved <= x.head
  }

  /** It holds the records published then, except those a replayed delete struck, and no other. */
  ghost predicate Under(held: seq<Slot>, born: seq<Slot>) {
    && (forall i :: 0 <= i < |held| && held[i].Live? ==> i < |born| && born[i] == held[i])
    && (forall i :: 0 <= i < |born| && born[i].Live? ==> i < |held|)
  }

  ghost predicate Grounded(w: World) {
    var x := Ground(w);
    && w.from <= |w.log0| && x.base == w.base <= x.head + 1
    && Max(x.head, x.reserved) == w.base + w.head0 - 1
    && Under(x.slots, w.born)
    && (Continues(w) || Low(x, |w.born|, w.rolled) || Short(x, |w.born|))
  }

  ghost predicate Inv(w: World) { Line(w) && Past(w) && Grounded(w) && (Aligned(w) ==> Shape(w)) }

  // ---- staging and committing -----------------------------------------------

  lemma {:induction false} ContiguousSnoc(works: seq<Work>, x: Work, next: nat, end: nat)
    requires Contiguous(works, next, end) && (x.Batch? ==> x.start == end && x.recs != [])
    ensures Contiguous(works + [x], next, end + Size(x))
  {
    if works == [] {
      assert works + [x] == [x] && [x][1..] == [];
    } else {
      ContiguousSnoc(works[1..], x, next + Size(works[0]), end);
      assert (works + [x])[1..] == works[1..] + [x];
    }
  }

  lemma {:induction false} OkFramesConcat(a: seq<Decided>, b: seq<Decided>)
    ensures OkFrames(a + b) == OkFrames(a) + OkFrames(b)
  {
    if a == [] {
      assert a + b == b;
    } else {
      OkFramesConcat(a[1..], b);
      ConcatTail(a, b);
      ConcatAssoc(if a[0].ok then Frames(a[0].work) else [], OkFrames(a[1..]), OkFrames(b));
    }
  }

  lemma {:induction false} OkFramesOfDecide(works: seq<Work>, ok: bool)
    ensures OkFrames(Decide(works, ok)) == if ok then AllFrames(works) else []
  {
    if works != [] {
      OkFramesOfDecide(works[1..], ok);
      assert Decide(works, ok)[1..] == Decide(works[1..], ok);
    }
  }

  /** A new ticket leaves the others where they are. */
  lemma NewTicket(base: nat, slots: seq<Slot>, more: seq<Slot>, visible: nat, works: seq<Work>, x: Work)
    requires AllPlaced(base, slots, visible, works)
    requires visible <= |slots| && Placed(base, slots + more, visible, x)
    ensures AllPlaced(base, slots + more, visible, works + [x])
  {
    forall k | 0 <= k < |works| ensures Placed(base, slots + more, visible, works[k]) {
      assert Placed(base, slots, visible, works[k]);
    }
  }

  lemma MoreSlots(base: nat, born: seq<Slot>, applied: seq<Frame>, slots: seq<Slot>, more: seq<Slot>, visible: nat,
      edge: nat)
    requires Shows(base, born, applied, slots, visible, edge)
    ensures Shows(base, born, applied, slots + more, visible, edge)
  {
  }

  lemma TicketKeepsShape(w: World, w1: World, x: Work, more: seq<Slot>)
    requires Shape(w) && Placed(w.base, w.slots + more, w.visible, x) && |more| == Size(x)
    requires x.Batch? ==> x.start == w.base + |w.slots| && x.recs != []
    requires w1 == w.(slots := w.slots + more, pending := w.pending + [x], doomed := w1.doomed)
    ensures Shape(w1)
  {
    ConcatAssoc(WorksOf(w.decided), w.pending, [x]);
    ContiguousSnoc(Works(w), x, w.base + w.edge, w.base + |w.slots|);
    NewTicket(w.base, w.slots, more, w.visible, Works(w), x);
    MoreSlots(w.base, w.born, w.applied, w.slots, more, w.visible, w.edge);
  }

  /** Seqs handed out again start afresh. */
  lemma StagedAfterTicket(base: nat, slots: seq<Slot>, more: seq<Slot>, works: seq<Work>, x: Work, next: nat,
      doomed: set<nat>, doomed1: set<nat>)
    requires AllStaged(base, slots, works, doomed) && Contiguous(works, next, base + |slots|)
    requires Staged(base, slots + more, x, doomed1)
    requires forall s :: s in doomed && s < base + |slots| ==> s in doomed1
    ensures AllStaged(base, slots + more, works + [x], doomed1)
  {
    WorksBelow(works, next, base + |slots|);
    forall k | 0 <= k < |works| ensures Staged(base, slots + more, works[k], doomed1) {
      assert Staged(base, slots, works[k], doomed);
    }
  }

  lemma {:induction false} WorksBelow(works: seq<Work>, next: nat, end: nat)
    requires Contiguous(works, next, end)
    ensures next <= end && forall k :: 0 <= k < |works| && works[k].Batch? ==>
              next <= works[k].start && works[k].start + |works[k].recs| <= end
  {
    if works != [] {
      WorksBelow(works[1..], next + Size(works[0]), end);
      forall k | 0 <= k < |works| && works[k].Batch?
        ensures next <= works[k].start && works[k].start + |works[k].recs| <= end
      {
        if k > 0 { assert works[1..][k - 1] == works[k]; }
      }
    }
  }

  lemma AcksAfterTicket(base: nat, born: seq<Slot>, slots: seq<Slot>, more: seq<Slot>, edge: nat, applied: seq<Frame>,
      acked: map<nat, Rec>, rolled: set<nat>, doomed: set<nat>, doomed1: set<nat>)
    requires AcksOk(base, born, slots, edge, applied, acked, rolled, doomed) && |born| <= edge
    requires forall s :: s in doomed && s < base + |slots| ==> s in doomed1
    ensures AcksOk(base, born, slots + more, edge, applied, acked, rolled, doomed1)
  {
  }

  /** A ticket taken: `more` is what it stages. */
  lemma TicketKeepsInv(w: World, w1: World, x: Work, more: seq<Slot>)
    requires Inv(w) && |more| == Size(x) && (Aligned(w) ==> Placed(w.base, w.slots + more, w.visible, x))
    requires x.Batch? ==> x.start == w.base + |w.slots| && x.recs != []
    requires w1 == w.(slots := w.slots + more, pending := w.pending + [x], doomed := w1.doomed)
    requires Staged(w.base, w.slots + more, x, w1.doomed)
    requires forall s :: s in w.doomed && s < w.base + |w.slots| ==> s in w1.doomed
    ensures Inv(w1)
  {
    ConcatAssoc(WorksOf(w.decided), w.pending, [x]);
    ContiguousSnoc(Works(w), x, w.base + w.edge, w.base + |w.slots|);
    StagedAfterTicket(w.base, w.slots, more, Works(w), x, w.base + w.edge, w.doomed, w1.doomed);
    AcksAfterTicket(w.base, w.born, w.slots, more, w.edge, w.applied, w.acked, w.rolled, w.doomed, w1.doomed);
    if Aligned(w) { TicketKeepsShape(w, w1, x, more); }
    assert Ground(w1) == Ground(w);
  }

  lemma StageKeepsInv(w: World, recs: seq<Rec>)
    requires Inv(w)
    ensures Inv(Do(w, Stage(recs)))
  {
    if recs != [] {
      TicketKeepsInv(w, Do(w, Stage(recs)), Batch(w.base + |w.slots|, recs), Lives(recs));
    }
  }

  lemma StageDeleteKeepsInv(w: World, before: Option<nat>, filter: Option<Filter>)
    requires Inv(w)
    ensures Inv(Do(w, StageDelete(before, filter)))
  {
    assert w.slots + [] == w.slots;
    TicketKeepsInv(w, Do(w, StageDelete(before, filter)), Del(Selector(before, filter, w.base + w.visible)), []);
  }

  lemma CommitExtendsLog(log: seq<Frame>, before: seq<Frame>, decided: seq<Decided>, works: seq<Work>, ok: bool)
    requires log == before + OkFrames(decided)
    ensures before + OkFrames(decided + Decide(works, ok)) == if ok then log + AllFrames(works) else log
  {
    OkFramesConcat(decided, Decide(works, ok));
    OkFramesOfDecide(works, ok);
    ConcatAssoc(before, OkFrames(decided), AllFrames(works));
  }

  lemma CommitKeepsWorks(w: World, k: nat, ok: bool)
    requires k <= |w.pending|
    ensures Works(Do(w, Commit(k, ok))) == Works(w)
  {
    assert WorksOf(w.decided + Decide(w.pending[..k], ok)) == WorksOf(w.decided) + w.pending[..k];
    ConcatAssoc(WorksOf(w.decided), w.pending[..k], w.pending[k..]);
    assert w.pending[..k] + w.pending[k..] == w.pending;
  }

  lemma CommitKeepsInv(w: World, k: nat, ok: bool)
    requires Inv(w)
    ensures Inv(Do(w, Commit(k, ok)))
  {
    if k <= |w.pending| {
      CommitKeepsWorks(w, k, ok);
      CommitExtendsLog(w.log, w.log0 + w.applied, w.decided, w.pending[..k], ok);
    }
  }

  // ---- the publish turn -----------------------------------------------------

  lemma PopWork(w: World)
    requires w.decided != []
    ensures Works(w) != [] && Works(w)[0] == w.decided[0].work
    ensures Works(w)[1..] == WorksOf(w.decided[1..]) + w.pending
  {
    assert WorksOf(w.decided)[1..] == WorksOf(w.decided[1..]);
    ConcatTail(WorksOf(w.decided), w.pending);
  }

  /** A logged batch shows as its records, above holes for the seqs it skips. */
  lemma {:induction false} BatchShown(base: nat, shown: seq<Slot>, start: nat, recs: seq<Rec>)
    requires base + |shown| <= start && recs != []
    ensures var frames := Frames(Batch(start, recs)); var r := Shown(base, shown, frames);
            && Climbs(base, shown, frames) && |r| == start - base + |recs|
            && forall i :: 0 <= i < |r| ==>
                 r[i] == if i < |shown| then shown[i] else if i < start - base then Hole
                     else Live(recs[i - (start - base)])
  {
    var n, frames := |recs| - 1, Frames(Batch(start, recs));
    assert frames[..n] == Frames(Batch(start, recs[..n])) && frames[n] == Append(start + n, recs[n]);
    if n > 0 {
      BatchShown(base, shown, start, recs[..n]);
    } else {
      assert frames[..0] == [];
    }
    assert Shown(base, shown, frames) == Show(base, Shown(base, shown, frames[..n]), frames[n]);
  }

  lemma TurnExtendsLog(w: World)
    requires w.decided != [] && w.log == w.log0 + w.applied + OkFrames(w.decided)
    ensures var d := w.decided[0];
            w.log == w.log0 + (if d.ok then w.applied + Frames(d.work) else w.applied) + OkFrames(w.decided[1..])
  {
    var f := Frames(w.decided[0].work);
    if w.decided[0].ok {
      ConcatAssoc(w.log0 + w.applied, f, OkFrames(w.decided[1..]));
      ConcatAssoc(w.log0, w.applied, f);
    } else {
      assert [] + OkFrames(w.decided[1..]) == OkFrames(w.decided[1..]);
    }
  }

  /** Applying one more ticket's frames. */
  lemma ShowsMoreFrames(base: nat, born: seq<Slot>, applied: seq<Frame>, f: seq<Frame>)
    requires Climbs(base, born, applied) && Climbs(base, Shown(base, born, applied), f)
    ensures Climbs(base, born, applied + f)
    ensures Shown(base, born, applied + f) == Shown(base, Shown(base, born, applied), f)
  {
    ShownConcat(base, born, applied, f);
    ClimbsConcat(base, born, applied, f);
  }

  lemma DeleteShown(base: nat, shown: seq<Slot>, sel: Selector)
    requires sel.bound <= base + |shown|
    ensures Shown(base, shown, [Delete(sel)]) == Erase(base, shown, sel) && Climbs(base, shown, [Delete(sel)])
  {
    assert [Delete(sel)][..0] == [];
  }

  /** The first ticket and the rest of the line. */
  lemma FirstTicket(w: World) returns (rest: seq<Work>)
    requires Shape(w) && w.decided != []
    ensures rest == WorksOf(w.decided[1..]) + w.pending && Works(w) == [w.decided[0].work] + rest
    ensures var work := w.decided[0].work;
            && Placed(w.base, w.slots, w.visible, work)
            && (work.Batch? ==> work.start == w.base + w.edge && work.recs != [])
            && Contiguous(rest, w.base + w.edge + Size(work), w.base + |w.slots|)
    ensures AllPlaced(w.base, w.slots, w.visible, rest)
  {
    PopWork(w);
    rest := Works(w)[1..];
    assert Placed(w.base, w.slots, w.visible, Works(w)[0]);
    forall k | 0 <= k < |rest| ensures Placed(w.base, w.slots, w.visible, rest[k]) {
      assert Placed(w.base, w.slots, w.visible, Works(w)[k + 1]);
    }
  }

  /** Slots below the staged batches may change. */
  lemma PlacedAfter(base: nat, slots: seq<Slot>, slots1: seq<Slot>, visible: nat, visible1: nat, works: seq<Work>,
      next: nat)
    requires AllPlaced(base, slots, visible, works) && Contiguous(works, base + next, base + |slots|)
    requires |slots1| == |slots| && visible <= visible1 <= next
    requires forall i :: next <= i < |slots| ==> slots1[i] == slots[i]
    ensures AllPlaced(base, slots1, visible1, works)
  {
    WorksBelow(works, base + next, base + |slots|);
    forall k | 0 <= k < |works| ensures Placed(base, slots1, visible1, works[k]) {
      assert Placed(base, slots, visible, works[k]);
    }
  }

  lemma PublishShows(base: nat, born: seq<Slot>, applied: seq<Frame>, slots: seq<Slot>, visible: nat, work: Work)
    requires work.Batch? && work.recs != [] && work.start >= base && Placed(base, slots, visible, work)
    requires Shows(base, born, applied, slots, visible, work.start - base)
    ensures var e := work.start - base + |work.recs|; Shows(base, born, applied + Frames(work), slots, e, e)
  {
    BatchShown(base, Shown(base, born, applied), work.start, work.recs);
    ShowsMoreFrames(base, born, applied, Frames(work));
  }

  lemma DeleteShows(base: nat, born: seq<Slot>, applied: seq<Frame>, slots: seq<Slot>, visible: nat, edge: nat,
      sel: Selector)
    requires Shows(base, born, applied, slots, visible, edge) && sel.bound <= base + visible
    ensures Shows(base, born, applied + [Delete(sel)], Erase(base, slots, sel), visible, edge)
  {
    DeleteShown(base, Shown(base, born, applied), sel);
    ShowsMoreFrames(base, born, applied, [Delete(sel)]);
  }

  lemma RollbackShows(base: nat, born: seq<Slot>, applied: seq<Frame>, slots: seq<Slot>, visible: nat, edge: nat,
      n: nat)
    requires Shows(base, born, applied, slots, visible, edge) && edge + n <= |slots|
    ensures Shows(base, born, applied, Blank(slots, edge, edge + n), visible, edge + n)
  {
  }

  /** Publishing the first ticket leaves the rest of the line in place. */
  lemma PublishKeepsPlaces(w: World, visible1: nat)
    requires Shape(w) && w.decided != [] && w.decided[0].work.Batch? && visible1 == w.edge + |w.decided[0].work.recs|
    ensures var rest := WorksOf(w.decided[1..]) + w.pending;
            Contiguous(rest, w.base + visible1, w.base + |w.slots|) && AllPlaced(w.base, w.slots, visible1, rest)
  {
    var rest := FirstTicket(w);
    WorksBelow(rest, w.base + visible1, w.base + |w.slots|);
    PlacedAfter(w.base, w.slots, w.slots, w.visible, visible1, rest, visible1);
  }

  lemma PublishKeepsShown(w: World, visible1: nat)
    requires Shape(w) && w.decided != [] && w.decided[0].work.Batch? && visible1 == w.edge + |w.decided[0].work.recs|
    ensures Shows(w.base, w.born, w.applied + Frames(w.decided[0].work), w.slots, visible1, visible1)
  {
    var rest := FirstTicket(w);
    PublishShows(w.base, w.born, w.applied, w.slots, w.visible, w.decided[0].work);
  }

  lemma PublishKeepsShape(w: World, w1: World)
    requires Shape(w) && w.decided != [] && w.decided[0].ok && w.decided[0].work.Batch?
    requires w1 == w.(decided := w.decided[1..], applied := w.applied + Frames(w.decided[0].work),
                      visible := w1.visible, edge := w1.visible, acked := w1.acked)
    requires w1.visible == w.edge + |w.decided[0].work.recs|
    ensures Shape(w1)
  {
    TurnExtendsLog(w);
    PublishKeepsPlaces(w, w1.visible);
    PublishKeepsShown(w, w1.visible);
  }

  lemma RollbackKeepsShape(w: World, w1: World)
    requires Shape(w) && w.decided != [] && !w.decided[0].ok && w.decided[0].work.Batch?
    requires w1.edge == w.edge + |w.decided[0].work.recs| <= |w.slots|
    requires w1 == w.(decided := w.decided[1..], slots := Blank(w.slots, w.edge, w1.edge), edge := w1.edge,
             rolled := w1.rolled)
    ensures Shape(w1)
  {
    var rest := FirstTicket(w);
    assert Works(w1) == rest;
    TurnExtendsLog(w);
    PlacedAfter(w.base, w.slots, w1.slots, w.visible, w.visible, rest, w1.edge);
    RollbackShows(w.base, w.born, w.applied, w.slots, w.visible, w.edge, |w.decided[0].work.recs|);
  }

  lemma DeleteKeepsShape(w: World, w1: World)
    requires Shape(w) && w.decided != [] && w.decided[0].ok && w.decided[0].work.Del?
    requires var sel := w.decided[0].work.sel;
             w1 == w.(decided := w.decided[1..], slots := Erase(w.base, w.slots, sel),
                 applied := w.applied + [Delete(sel)], doomed := w1.doomed)
    ensures Shape(w1)
  {
    var rest := FirstTicket(w);
    assert Works(w1) == rest;
    TurnExtendsLog(w);
    PlacedAfter(w.base, w.slots, w1.slots, w.visible, w.visible, rest, w.edge);
    DeleteShows(w.base, w.born, w.applied, w.slots, w.visible, w.edge, w.decided[0].work.sel);
  }

  // ---- the same in any case -------------------------------------------------

  /** The first ticket and the rest of the line. */
  lemma FirstInLine(w: World) returns (rest: seq<Work>)
    requires Line(w) && w.decided != []
    ensures rest == WorksOf(w.decided[1..]) + w.pending && Works(w) == [w.decided[0].work] + rest
    ensures var work := w.decided[0].work;
            && (work.Batch? ==> work.start == w.base + w.edge && work.recs != [] && w.edge + |work.recs| <= |w.slots|)
            && Contiguous(rest, w.base + w.edge + Size(work), w.base + |w.slots|)
  {
    PopWork(w);
    rest := Works(w)[1..];
    WorksBelow(Works(w), w.base + w.edge, w.base + |w.slots|);
  }

  lemma {:induction false} BatchRises(start: nat, recs: seq<Rec>)
    ensures var frames := Frames(Batch(start, recs));
            && Plain(frames) && Rises(start, start + |recs|, frames) && Appended(frames) == Range(start, start + |recs|)
    decreases |recs|
  {
    if recs != [] {
      var n := |recs| - 1;
      BatchRises(start, recs[..n]);
      assert Frames(Batch(start, recs))[..n] == Frames(Batch(start, recs[..n]));
    }
  }

  lemma PlainConcat(a: seq<Frame>, b: seq<Frame>)
    requires Plain(a) && Plain(b)
    ensures Plain(a + b)
  {
  }

  /** The frames applied once a batch is published. */
  lemma PublishSince(base: nat, lo: nat, edge: nat, top: nat, applied: seq<Frame>, recs: seq<Rec>)
    requires Since(lo, base + edge, top, applied)
    ensures var end, applied1 := base + edge + |recs|, applied + Frames(Batch(base + edge, recs));
            && Since(lo, end, end, applied1)
            && Appended(applied1) == Appended(applied) + Range(base + edge, base + edge + |recs|)
  {
    var frames := Frames(Batch(base + edge, recs));
    BatchRises(base + edge, recs);
    PlainConcat(applied, frames);
    RisesConcat(lo, base + edge, base + edge + |recs|, applied, frames);
    AppendedConcat(applied, frames);
    var applied1 := applied + frames;
    RisesBounds(lo, base + edge + |recs|, applied1);
    forall s | s in Appended(applied1) ensures s < base + edge + |recs| { AppendedIsIn(applied1, s); }
  }

  lemma PublishRolled(base: nat, lo: nat, edge: nat, top: nat, applied: seq<Frame>, recs: seq<Rec>, rolled: set<nat>)
    requires Since(lo, base + edge, top, applied) && RolledOk(lo, base + edge, applied, rolled)
    ensures RolledOk(lo, base + edge + |recs|, applied + Frames(Batch(base + edge, recs)), rolled)
  {
    PublishSince(base, lo, edge, top, applied, recs);
    RisesBounds(lo, base + edge, applied);
  }

  /** Appends strike nothing. */
  lemma AppendsStrikeNone(start: nat, recs: seq<Rec>, s: nat, slot: Slot)
    ensures !StruckBy(Frames(Batch(start, recs)), s, slot)
  {
  }

  lemma PublishErased(base: nat, born: seq<Slot>, applied: seq<Frame>, slots: seq<Slot>, start: nat, recs: seq<Rec>)
    requires Erased(base, born, applied, slots)
    ensures Erased(base, born, applied + Frames(Batch(start, recs)), slots)
  {
    forall i | 0 <= i < |born|
      ensures StruckBy(applied + Frames(Batch(start, recs)), base + i, born[i]) <==>
              StruckBy(applied, base + i, born[i])
    {
      StruckConcat(applied, Frames(Batch(start, recs)), base + i, born[i]);
      AppendsStrikeNone(start, recs, base + i, born[i]);
    }
  }

  lemma PublishAcks(base: nat, born: seq<Slot>, slots: seq<Slot>, edge: nat, applied: seq<Frame>, recs: seq<Rec>,
                    acked: map<nat, Rec>, rolled: set<nat>, doomed: set<nat>)
    requires AcksOk(base, born, slots, edge, applied, acked, rolled, doomed) && edge + |recs| <= |slots|
    requires Staged(base, slots, Batch(base + edge, recs), doomed) && forall x :: x in rolled ==> x < base + edge
    ensures var start := base + edge;
            AcksOk(base, born, slots, edge + |recs|, applied + Frames(Batch(start, recs)),
                   WithBatch(acked, start, recs), rolled, doomed)
  {
    var start, frames := base + edge, Frames(Batch(base + edge, recs));
    var acked1 := WithBatch(acked, start, recs);
    forall s | s in acked1
      ensures && base <= s < base + edge + |recs| && s !in rolled
              && (s !in doomed ==> slots[s - base] == Live(acked1[s]))
              && (s >= base + |born| ==> Append(s, acked1[s]) in applied + frames)
    {
      if start <= s < start + |recs| {
        assert frames[s - start] == Append(s, recs[s - start]);
      }
    }
  }

  /** The rest of the line stays staged. */
  lemma StagedAfter(base: nat, slots: seq<Slot>, slots1: seq<Slot>, work: Work, rest: seq<Work>, next: nat,
      doomed: set<nat>, doomed1: set<nat>)
    requires AllStaged(base, slots, [work] + rest, doomed) && Contiguous(rest, base + next, base + |slots|)
    requires |slots1| == |slots| && doomed <= doomed1
    requires forall i :: next <= i < |slots| ==> slots1[i] == slots[i] || (slots1[i].Hole? && base + i in doomed1)
    ensures AllStaged(base, slots1, rest, doomed1) && Staged(base, slots, work, doomed)
  {
    var works := [work] + rest;
    WorksBelow(rest, base + next, base + |slots|);
    assert Staged(base, slots, works[0], doomed);
    forall k | 0 <= k < |rest| ensures Staged(base, slots1, rest[k], doomed1) {
      assert Staged(base, slots, works[k + 1], doomed);
    }
  }

  /** The ground of a history does not change while it lasts. */
  lemma StaysGrounded(w: World, w1: World)
    requires Grounded(w) && w.rolled <= w1.rolled
    requires w1.base == w.base && w1.image == w.image && w1.from == w.from && w1.log0 == w.log0 && w1.born == w.born
    requires w1.head0 == w.head0
    ensures Grounded(w1) && Ground(w1) == Ground(w) && Continues(w1) == Continues(w) && Aligned(w1) == Aligned(w)
  {
  }

  lemma AppliedBelow(w: World)
    requires Line(w)
    ensures forall s :: s in Appended(w.applied) ==> w.base + |w.born| <= s < w.base + w.edge
  {
    RisesBounds(w.base + |w.born|, w.base + w.edge, w.applied);
    forall s | s in Appended(w.applied) ensures w.base + |w.born| <= s < w.base + w.edge { AppendedIsIn(w.applied, s); }
  }

  /** The turn of a committed batch, first in line. */
  ghost predicate Publishes(w: World, w1: World) {
    && w.decided != [] && w.decided[0].ok && w.decided[0].work.Batch?
    && var d := w.decided[0].work;
       && d == Batch(w.base + w.edge, d.recs) && w.edge + |d.recs| <= |w.slots|
       && w1 == w.(decided := w.decided[1..], applied := w.applied + Frames(d), visible := w.edge + |d.recs|,
                   edge := w.edge + |d.recs|, acked := w1.acked)
       && Works(w) == [d] + Works(w1) && Contiguous(Works(w1), w.base + w1.edge, w.base + |w.slots|)
  }

  lemma PublishKeepsLine(w: World, w1: World)
    requires Line(w) && Publishes(w, w1)
    ensures Line(w1)
  {
    TurnExtendsLog(w);
    PublishSince(w.base, w.base + |w.born|, w.edge, w.base + w.visible, w.applied, w.decided[0].work.recs);
  }

  lemma PublishKeepsStaged(w: World, w1: World)
    requires Publishes(w, w1) && AllStaged(w.base, w.slots, Works(w), w.doomed)
    ensures AllStaged(w1.base, w1.slots, Works(w1), w1.doomed)
    ensures Staged(w.base, w.slots, w.decided[0].work, w.doomed)
  {
    StagedAfter(w.base, w.slots, w.slots, w.decided[0].work, Works(w1), w1.edge, w.doomed, w.doomed);
  }

  lemma PublishKeepsAcks(w: World, w1: World)
    requires Publishes(w, w1) && Staged(w.base, w.slots, w.decided[0].work, w.doomed)
    requires AcksOk(w.base, w.born, w.slots, w.edge, w.applied, w.acked, w.rolled, w.doomed)
    requires forall x :: x in w.rolled ==> x < w.base + w.edge
    requires w1.acked == WithBatch(w.acked, w.base + w.edge, w.decided[0].work.recs)
    ensures AcksOk(w1.base, w1.born, w1.slots, w1.edge, w1.applied, w1.acked, w1.rolled, w1.doomed)
  {
    PublishAcks(w.base, w.born, w.slots, w.edge, w.applied, w.decided[0].work.recs, w.acked, w.rolled, w.doomed);
  }

  lemma PublishLogged(base: nat, born: nat, edge: nat, applied: seq<Frame>, slots: seq<Slot>, recs: seq<Rec>,
                      doomed: set<nat>)
    requires Logged(base, born, edge, applied, slots) && edge + |recs| <= |slots|
    requires Staged(base, slots, Batch(base + edge, recs), doomed)
    ensures Logged(base, born, edge + |recs|, applied + Frames(Batch(base + edge, recs)), slots)
  {
    var frames := Frames(Batch(base + edge, recs));
    forall i | edge <= i < edge + |recs| && slots[i].Live? ensures Append(base + i, slots[i].rec) in applied + frames {
      assert frames[i - edge] == Append(base + i, recs[i - edge]);
    }
  }

  lemma PublishKeepsLogged(w: World, w1: World)
    requires Publishes(w, w1) && Staged(w.base, w.slots, w.decided[0].work, w.doomed)
    requires Logged(w.base, |w.born|, w.edge, w.applied, w.slots) && Erased(w.base, w.born, w.applied, w.slots)
    ensures Logged(w1.base, |w1.born|, w1.edge, w1.applied, w1.slots) && Erased(w1.base, w1.born, w1.applied, w1.slots)
  {
    var d := w.decided[0].work;
    PublishLogged(w.base, |w.born|, w.edge, w.applied, w.slots, d.recs, w.doomed);
    PublishErased(w.base, w.born, w.applied, w.slots, d.start, d.recs);
  }

  lemma PublishKeepsRolled(w: World, w1: World)
    requires Line(w) && Publishes(w, w1) && RolledOk(w.base + |w.born|, w.base + w.edge, w.applied, w.rolled)
    ensures RolledOk(w1.base + |w1.born|, w1.base + w1.edge, w1.applied, w1.rolled)
  {
    var d := w.decided[0].work;
    PublishRolled(w.base, w.base + |w.born|, w.edge, w.base + w.visible, w.applied, d.recs, w.rolled);
  }

  lemma PublishKeepsPast(w: World, w1: World)
    requires Line(w) && Past(w) && Publishes(w, w1)
    requires w1.acked == WithBatch(w.acked, w.base + w.edge, w.decided[0].work.recs)
    ensures Past(w1)
  {
    PublishKeepsRolled(w, w1);
    PublishKeepsStaged(w, w1);
    PublishKeepsAcks(w, w1);
    PublishKeepsLogged(w, w1);
  }

  lemma PublishKeepsInv(w: World, w1: World)
    requires Inv(w) && Publishes(w, w1)
    requires w1.acked == WithBatch(w.acked, w.base + w.edge, w.decided[0].work.recs)
    ensures Inv(w1)
  {
    PublishKeepsLine(w, w1);
    PublishKeepsPast(w, w1);
    StaysGrounded(w, w1);
    if Aligned(w) { PublishKeepsShape(w, w1); }
  }

  /** The turn of a failed batch, first in line. */
  ghost predicate RollsBack(w: World, w1: World) {
    && w.decided != [] && !w.decided[0].ok && w.decided[0].work.Batch?
    && w1.edge == w.edge + |w.decided[0].work.recs| <= |w.slots|
    && w1.rolled == w.rolled + Range(w.base + w.edge, w.base + w1.edge)
    && w1 == w.(decided := w.decided[1..], slots := Blank(w.slots, w.edge, w1.edge), edge := w1.edge,
                rolled := w1.rolled)
    && Works(w) == [w.decided[0].work] + Works(w1) && Contiguous(Works(w1), w.base + w1.edge, w.base + |w.slots|)
  }

  lemma RollbackKeepsRolled(w: World, w1: World)
    requires Line(w) && RollsBack(w, w1) && RolledOk(w.base + |w.born|, w.base + w.edge, w.applied, w.rolled)
    ensures RolledOk(w1.base + |w1.born|, w1.base + w1.edge, w1.applied, w1.rolled)
  {
    AppliedBelow(w);
  }

  lemma RollbackKeepsSlots(w: World, w1: World)
    requires RollsBack(w, w1) && |w.born| <= w.edge
    requires Blanks(w.base, w.slots, w.rolled) && Erased(w.base, w.born, w.applied, w.slots)
    requires Logged(w.base, |w.born|, w.edge, w.applied, w.slots)
    requires AcksOk(w.base, w.born, w.slots, w.edge, w.applied, w.acked, w.rolled, w.doomed)
    ensures Blanks(w1.base, w1.slots, w1.rolled) && Erased(w1.base, w1.born, w1.applied, w1.slots)
    ensures Logged(w1.base, |w1.born|, w1.edge, w1.applied, w1.slots)
    ensures AcksOk(w1.base, w1.born, w1.slots, w1.edge, w1.applied, w1.acked, w1.rolled, w1.doomed)
  {
  }

  lemma RollbackKeepsPast(w: World, w1: World)
    requires Line(w) && Past(w) && RollsBack(w, w1)
    ensures Past(w1)
  {
    RollbackKeepsRolled(w, w1);
    RollbackKeepsSlots(w, w1);
    StagedAfter(w.base, w.slots, w1.slots, w.decided[0].work, Works(w1), w1.edge, w.doomed, w.doomed);
  }

  lemma RollbackKeepsLine(w: World, w1: World)
    requires Line(w) && RollsBack(w, w1)
    ensures Line(w1)
  {
    TurnExtendsLog(w);
    RisesWider(w.base + |w.born|, w.base + w.edge, w.base + |w.born|, w.base + w1.edge, w.applied);
  }

  lemma RollbackKeepsInv(w: World, w1: World)
    requires Inv(w) && RollsBack(w, w1)
    ensures Inv(w1)
  {
    RollbackKeepsLine(w, w1);
    RollbackKeepsPast(w, w1);
    StaysGrounded(w, w1);
    if Aligned(w) { RollbackKeepsShape(w, w1); }
  }

  lemma DeleteErased(base: nat, born: seq<Slot>, applied: seq<Frame>, slots: seq<Slot>, sel: Selector)
    requires Erased(base, born, applied, slots)
    ensures Erased(base, born, applied + [Delete(sel)], Erase(base, slots, sel))
  {
    forall i | 0 <= i < |born|
      ensures Erase(base, slots, sel)[i] ==
              if StruckBy(applied + [Delete(sel)], base + i, born[i]) then Hole else born[i]
    {
      StruckSnoc(applied, Delete(sel), base + i, born[i]);
    }
  }

  /** What a delete leaves of what was blank or logged. */
  lemma DeleteSlots(base: nat, born: nat, edge: nat, applied: seq<Frame>, slots: seq<Slot>, rolled: set<nat>,
                    sel: Selector)
    requires Blanks(base, slots, rolled) && Logged(base, born, edge, applied, slots)
    ensures Blanks(base, Erase(base, slots, sel), rolled)
    ensures Logged(base, born, edge, applied + [Delete(sel)], Erase(base, slots, sel))
  {
  }

  lemma DeleteStaged(base: nat, slots: seq<Slot>, work: Work, rest: seq<Work>, next: nat, doomed: set<nat>,
                     sel: Selector)
    requires AllStaged(base, slots, [work] + rest, doomed) && Contiguous(rest, base + next, base + |slots|)
    ensures AllStaged(base, Erase(base, slots, sel), rest, doomed + Picked(base, slots, sel))
  {
    StagedAfter(base, slots, Erase(base, slots, sel), work, rest, next, doomed, doomed + Picked(base, slots, sel));
  }

  lemma DeleteKeepsPast(w: World, w1: World, rest: seq<Work>, sel: Selector)
    requires Past(w) && w.decided != [] && w.decided[0].work == Del(sel)
    requires Works(w) == [w.decided[0].work] + rest && Works(w1) == rest
    requires Contiguous(rest, w.base + w.edge, w.base + |w.slots|) && Appended(w1.applied) == Appended(w.applied)
    requires w1 == w.(decided := w1.decided, slots := Erase(w.base, w.slots, sel), applied := w.applied + [Delete(sel)],
                      doomed := w.doomed + Picked(w.base, w.slots, sel))
    ensures Past(w1)
  {
    DeleteStaged(w.base, w.slots, w.decided[0].work, rest, w.edge, w.doomed, sel);
    DeleteSlots(w.base, |w.born|, w.edge, w.applied, w.slots, w.rolled, sel);
    DeleteErased(w.base, w.born, w.applied, w.slots, sel);
    DeleteAcks(w.base, w.born, w.slots, w.edge, w.applied, w.acked, w.rolled, w.doomed, sel);
  }

  lemma DeleteAcks(base: nat, born: seq<Slot>, slots: seq<Slot>, edge: nat, applied: seq<Frame>, acked: map<nat, Rec>,
                   rolled: set<nat>, doomed: set<nat>, sel: Selector)
    requires AcksOk(base, born, slots, edge, applied, acked, rolled, doomed)
    ensures AcksOk(base, born, Erase(base, slots, sel), edge, applied + [Delete(sel)], acked, rolled,
                   doomed + Picked(base, slots, sel))
  {
    forall s | s in acked && s !in doomed + Picked(base, slots, sel)
      ensures Erase(base, slots, sel)[s - base] == Live(acked[s])
    {
      assert base + (s - base) == s;
    }
  }

  lemma DeleteKeepsLine(w: World, w1: World, sel: Selector)
    requires Line(w) && w.decided != [] && w.decided[0].ok && w.decided[0].work == Del(sel)
    requires w1 == w.(decided := w.decided[1..], slots := Erase(w.base, w.slots, sel),
                 applied := w.applied + [Delete(sel)], doomed := w1.doomed)
    ensures Line(w1) && Appended(w1.applied) == Appended(w.applied)
  {
    var rest := FirstInLine(w);
    assert Works(w1) == rest;
    TurnExtendsLog(w);
    assert (w.applied + [Delete(sel)])[..|w.applied|] == w.applied;
  }

  /** The turn of a committed delete, first in line. */
  ghost predicate Deletes(w: World, w1: World, sel: Selector) {
    && w.decided != [] && w.decided[0].ok && w.decided[0].work == Del(sel)
    && w1 == w.(decided := w.decided[1..], slots := Erase(w.base, w.slots, sel),
                applied := w.applied + [Delete(sel)], doomed := w.doomed + Picked(w.base, w.slots, sel))
    && Works(w) == [Del(sel)] + Works(w1) && Contiguous(Works(w1), w.base + w.edge, w.base + |w.slots|)
  }

  lemma DeleteKeepsInv(w: World, w1: World, sel: Selector)
    requires Inv(w) && Deletes(w, w1, sel)
    ensures Inv(w1)
  {
    DeleteKeepsLine(w, w1, sel);
    DeleteKeepsPast(w, w1, Works(w1), sel);
    StaysGrounded(w, w1);
    if Aligned(w) { DeleteKeepsShape(w, w1); }
  }

  lemma DeleteTurn(w: World)
    requires Line(w) && w.decided != [] && w.decided[0].work.Del? && w.decided[0].ok
    ensures Deletes(w, Do(w, Turn), w.decided[0].work.sel)
  {
    var rest := FirstInLine(w);
    assert Works(Do(w, Turn)) == rest;
  }

  lemma NoDeleteKeepsInv(w: World, w1: World)
    requires Inv(w) && w.decided != [] && !w.decided[0].ok && w.decided[0].work.Del?
             && w1 == w.(decided := w.decided[1..])
    ensures Inv(w1)
  {
    var rest := FirstInLine(w);
    assert Works(w1) == rest;
    TurnExtendsLog(w);
    StagedAfter(w.base, w.slots, w.slots, w.decided[0].work, rest, w.edge, w.doomed, w.doomed);
    StaysGrounded(w, w1);
    if Aligned(w) { var rest1 := FirstTicket(w); }
  }

  /** A decided ticket always finds its batch in place. */
  lemma TicketInSlots(w: World)
    requires Line(w) && w.decided != []
    ensures var work := w.decided[0].work; InSlots(w, work) && (work.Batch? ==> work.start == w.base + w.edge)
  {
    var rest := FirstInLine(w);
  }

  lemma PublishTurn(w: World)
    requires Line(w) && w.decided != [] && w.decided[0].work.Batch? && w.decided[0].ok
    ensures Publishes(w, Do(w, Turn))
    ensures Do(w, Turn).acked == WithBatch(w.acked, w.base + w.edge, w.decided[0].work.recs)
  {
    var rest := FirstInLine(w);
    assert Works(Do(w, Turn)) == rest;
  }

  lemma RollbackTurn(w: World)
    requires Line(w) && w.decided != [] && w.decided[0].work.Batch? && !w.decided[0].ok
    ensures RollsBack(w, Do(w, Turn))
  {
    var rest := FirstInLine(w);
    assert Works(Do(w, Turn)) == rest;
  }

  lemma BatchTurnKeepsInv(w: World)
    requires Inv(w) && w.decided != [] && w.decided[0].work.Batch?
    ensures Inv(Do(w, Turn))
  {
    if w.decided[0].ok {
      PublishTurn(w);
      PublishKeepsInv(w, Do(w, Turn));
    } else {
      RollbackTurn(w);
      RollbackKeepsInv(w, Do(w, Turn));
    }
  }

  lemma DeleteTurnKeepsInv(w: World)
    requires Inv(w) && w.decided != [] && w.decided[0].work.Del?
    ensures Inv(Do(w, Turn))
  {
    if w.decided[0].ok {
      DeleteTurn(w);
      DeleteKeepsInv(w, Do(w, Turn), w.decided[0].work.sel);
    } else {
      NoDeleteKeepsInv(w, Do(w, Turn));
    }
  }

  lemma TurnKeepsInv(w: World)
    requires Inv(w)
    ensures Inv(Do(w, Turn))
  {
    if w.decided != [] {
      if w.decided[0].work.Batch? { BatchTurnKeepsInv(w); } else { DeleteTurnKeepsInv(w); }
    }
  }
}
