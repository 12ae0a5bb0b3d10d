/** Snapshots of a topic (`capture_topic` and `restore_topic` in `src/engine/snapshot.rs`) and
    replay on what they restore (`replay_frame` in `src/engine/recovery.rs`,
    `apply_append_for_recovery` and `apply_head_watermarks` in `src/engine/mod.rs`). */
module TopicSnapshot {
  import opened Common
  import opened TopicLog

  /** The index of a topic: slot `i` holds seq `base + i`, appends go to the end of the slots,
      and `head` is kept beside them. */
  datatype Index = Index(base: nat, slots: seq<Slot>, head: int, reserved: int)

  /** The end of the slots is where the head says it is. */
  predicate Level(x: Index) { x.head == x.base + |x.slots| - 1 }

  /** Replay of one frame: an append is let in by the head, but lands at the end of the slots
      and moves the head there. */
  function Take(x: Index, f: Frame): Index {
    match f
    case Append(s, rec) =>
      if s == x.head + 1 then x.(slots := x.slots + [Live(rec)], head := x.base + |x.slots|) else x
    case Delete(sel) => x.(slots := Erase(x.base, x.slots, sel))
    case DeleteSeqs(seqs) => x.(slots := EraseSeqs(x.base, x.slots, seqs))
    case EvictWatermark(_, _) => x
    case HeadWatermark(h) => x.(reserved := Max(x.reserved, h))
  }

  function TakeAll(x: Index, frames: seq<Frame>): (r: Index)
    ensures r.base == x.base && |x.slots| <= |r.slots|
  {
    if frames == [] then x else Take(TakeAll(x, frames[..|frames| - 1]), frames[|frames| - 1])
  }

  /** Seqs reserved beyond the head are padded as holes, and the head moves there. */
  function Reconcile(x: Index): Index {
    if x.reserved <= x.head then x else
    x.(slots := x.slots + Holes(Max(x.reserved + 1 - (x.base + |x.slots|), 0)), head := x.reserved)
  }

  lemma {:induction false} TakeConcat(x: Index, a: seq<Frame>, b: seq<Frame>)
    ensures TakeAll(x, a + b) == TakeAll(TakeAll(x, a), b)
  {
    if b == [] {
      assert a + b == a;
    } else {
      TakeConcat(x, a, b[..|b| - 1]);
      ConcatInit(a, b);
    }
  }

  /** A topic that holds these slots. */
  function At(base: nat, slots: seq<Slot>): Topic { Topic(base, slots, 0, 0, 0) }

  /** Appends and selector deletes only. */
  ghost predicate Plain(frames: seq<Frame>) {
    forall k :: 0 <= k < |frames| ==> frames[k].Append? || frames[k].Delete?
  }

  /** On a level index replay is the replay of the topic. */
  lemma {:induction false} LevelReplay(x: Index, frames: seq<Frame>)
    requires Level(x)
    ensures var y, t := TakeAll(x, frames), Replay(At(x.base, x.slots), frames);
            && Level(y) && y.slots == t.slots
            && (Plain(frames) ==> t == At(x.base, t.slots) && y.reserved == x.reserved)
  {
    if frames != [] { LevelReplay(x, frames[..|frames| - 1]); }
  }

  // ---- the image ------------------------------------------------------------

  datatype Entry = Entry(s: nat, rec: Rec)

  /** What a snapshot keeps of a topic: how far its front was reclaimed, its live published
      records, and its head. */
  datatype Image = Image(base: nat, front: nat, live: seq<Entry>, head: int)

  function LiveOf(base: nat, slots: seq<Slot>, lo: nat, hi: nat): seq<Entry>
    requires hi <= |slots|
    decreases hi
  {
    if hi <= lo then []
    else if slots[hi - 1].Live? then LiveOf(base, slots, lo, hi - 1) + [Entry(base + hi - 1, slots[hi - 1].rec)]
    else LiveOf(base, slots, lo, hi - 1)
  }

  /** How many slots the head covers. */
  function Published(x: Index): nat { Max(Min(x.head + 1 - x.base, |x.slots|), 0) }

  /** The slots below `front` are dead, so that they may have been reclaimed. */
  ghost predicate DeadFront(slots: seq<Slot>, front: nat) {
    front <= |slots| && forall i :: 0 <= i < front ==> slots[i].Hole?
  }

  /** The image of an index whose slots below `front` were reclaimed. */
  function Capture(x: Index, front: nat): Image {
    Image(x.base, front, LiveOf(x.base, x.slots, front, Published(x)), x.head)
  }

  /** Seqs behind the published slots add nothing. */
  lemma {:induction false} LiveOfPast(base: nat, slots: seq<Slot>, lo: nat, i: nat, hi: nat)
    requires lo <= i <= |slots| && hi <= |slots| && (i == hi || (i == lo && hi <= lo))
    ensures LiveOf(base, slots, lo, i) == LiveOf(base, slots, lo, hi)
  {
  }

  /** Records in seq order, between `lo` and `hi`. */
  ghost predicate InOrder(live: seq<Entry>, lo: int, hi: int) {
    && (forall i :: 0 <= i < |live| ==> lo <= live[i].s < hi)
    && forall i, j :: 0 <= i < j < |live| ==> live[i].s < live[j].s
  }

  ghost predicate Ascending(m: Image) { InOrder(m.live, m.base + m.front, m.head + 1) }

  lemma {:induction false} LiveOfAscends(base: nat, slots: seq<Slot>, lo: nat, hi: nat)
    requires hi <= |slots|
    ensures InOrder(LiveOf(base, slots, lo, hi), base + lo, base + hi)
    decreases hi
  {
    if hi > lo { LiveOfAscends(base, slots, lo, hi - 1); }
  }

  /** Every image taken of an index lists its records in seq order behind its front. */
  lemma CaptureAscends(x: Index, front: nat)
    ensures Ascending(Capture(x, front))
  {
    LiveOfAscends(x.base, x.slots, front, Published(x));
  }

  /** Each record is put back at its seq, with holes in between. */
  function Refill(base: nat, slots: seq<Slot>, live: seq<Entry>): seq<Slot> {
    if live == [] then slots else
    var r, p := Refill(base, slots, live[..|live| - 1]), live[|live| - 1];
    r + Holes(Max(p.s - base - |r|, 0)) + [Live(p.rec)]
  }

  function Restore(m: Image): Index { Index(m.base, Refill(m.base, Holes(m.front), m.live), m.head, m.head) }

  /** One past the last live slot below `hi`, but not below `lo`. */
  function LastLive(slots: seq<Slot>, lo: nat, hi: nat): (n: nat)
    requires hi <= |slots|
    ensures lo <= n <= Max(lo, hi) && (n > lo ==> slots[n - 1].Live?)
    ensures forall i :: n <= i < hi ==> slots[i].Hole?
    decreases hi
  {
    if hi <= lo then lo else if slots[hi - 1].Live? then hi else LastLive(slots, lo, hi - 1)
  }

  lemma RefillSnoc(base: nat, slots: seq<Slot>, live: seq<Entry>, p: Entry)
    ensures var r := Refill(base, slots, live);
            Refill(base, slots, live + [p]) == r + Holes(Max(p.s - base - |r|, 0)) + [Live(p.rec)]
  {
    assert (live + [p])[..|live|] == live;
  }

  /** Putting back one more record fills the slots up to it. */
  lemma RefillOne(base: nat, slots: seq<Slot>, lo: nat, live: seq<Entry>, cut: nat, hi: nat)
    requires cut < hi <= |slots| && slots[hi - 1].Live? && forall i :: cut <= i < hi - 1 ==> slots[i].Hole?
    requires Refill(base, Holes(lo), live) == slots[..cut]
    ensures Refill(base, Holes(lo), live + [Entry(base + hi - 1, slots[hi - 1].rec)]) == slots[..hi]
  {
    RefillSnoc(base, Holes(lo), live, Entry(base + hi - 1, slots[hi - 1].rec));
    assert slots[..cut] + Holes(hi - 1 - cut) + [slots[hi - 1]] == slots[..hi];
  }

  /** Refilling gives the slots back up to the last live one, and nothing behind it. */
  lemma {:induction false} RefillCuts(base: nat, slots: seq<Slot>, lo: nat, hi: nat)
    requires lo <= |slots| && hi <= |slots| && forall i :: 0 <= i < lo ==> slots[i].Hole?
    ensures Refill(base, Holes(lo), LiveOf(base, slots, lo, hi)) == slots[..LastLive(slots, lo, hi)]
    decreases hi
  {
    if hi <= lo {
      assert Holes(lo) == slots[..lo];
    } else {
      RefillCuts(base, slots, lo, hi - 1);
      if slots[hi - 1].Live? {
        RefillOne(base, slots, lo, LiveOf(base, slots, lo, hi - 1), LastLive(slots, lo, hi - 1), hi);
      }
    }
  }

  /** How many slots an image of the index restores: up to the last live published one, and the
      reclaimed front in any case. */
  function Cut(x: Index, front: nat): (n: nat)
    ensures front <= n <= Max(front, Published(x))
  {
    LastLive(x.slots, front, Published(x))
  }

  /** The head is within the slots, and the last published slot is live or the reclaimed front is
      exactly what is published. */
  ghost predicate EndsLive(x: Index, front: nat) {
    && x.head < x.base + |x.slots|
    && ((0 < Published(x) && x.slots[Published(x) - 1].Live?) || front == Published(x))
  }

  /** A snapshot gives the slots back up to the last live published one, all live published
      records with them. Their end is where the head says it is, so that the next append lands
      behind the head, exactly when the topic ends in a live record or the reclaimed front is
      exactly what is published; and then nothing published is missing. */
  lemma RestoreIsExactlyWhen(x: Index, front: nat)
    requires x.base - 1 <= x.head && DeadFront(x.slots, front)
    ensures var y, n := Restore(Capture(x, front)), Cut(x, front);
            && n <= |x.slots| && y == Index(x.base, x.slots[..n], x.head, x.head)
            && (forall i :: n <= i < Published(x) ==> x.slots[i].Hole?)
            && (Level(y) <==> EndsLive(x, front)) && (EndsLive(x, front) ==> n == Published(x))
  {
    RefillCuts(x.base, x.slots, front, Published(x));
  }
}
