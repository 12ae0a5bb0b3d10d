/** A topic as its slots, the WAL frames that change it, and replay of those frames
    (`replay_frame` in `src/engine/recovery.rs`). */
module TopicLog {
  import opened Common

  /** A stored record; its payload is opaque. */
  datatype Rec = Rec(tag: Option<string>, data: string)

  /** What a seq holds: a live record, or a hole left by a delete, a rollback or padding. */
  datatype Slot = Live(rec: Rec) | Hole

  function Holes(n: nat): seq<Slot> { seq(n, i => Hole) }

  datatype Filter = Eq(tag: string) | Glob(prefix: string)

  predicate Matches(f: Filter, rec: Rec) {
    rec.tag.Some? && match f
                     case Eq(v) => rec.tag.value == v
                     case Glob(p) => p <= rec.tag.value
  }

  /** A selector delete pinned to `bound`, the head plus one when it was logged. */
  datatype Selector = Selector(before: Option<nat>, filter: Option<Filter>, bound: nat)

  datatype Frame =
    | Append(s: nat, rec: Rec)
    | Delete(sel: Selector)
    | DeleteSeqs(seqs: set<nat>)
    | EvictWatermark(evict: nat, expiry: nat)
    | HeadWatermark(h: nat)

  /** A topic: slot `i` holds seq `base + i`; the floors and the reservation only rise. */
  datatype Topic = Topic(base: nat, slots: seq<Slot>, evictFloor: nat, expiryFloor: nat, reserved: nat)

  function Fresh(base: nat): Topic { Topic(base, [], 0, 0, 0) }

  /** The seq the next append gets. */
  function Next(t: Topic): nat { t.base + |t.slots| }

  /** The selector picks this record. */
  predicate Picks(sel: Selector, s: nat, slot: Slot) {
    && slot.Live? && s < sel.bound
    && (sel.before.Some? ==> s < sel.before.value)
    && (sel.filter.Some? ==> Matches(sel.filter.value, slot.rec))
  }

  /** The frame deletes this record. */
  predicate Strikes(f: Frame, s: nat, slot: Slot) {
    match f
    case Delete(sel) => Picks(sel, s, slot)
    case DeleteSeqs(seqs) => slot.Live? && s in seqs
    case _ => false
  }

  /** The slots with every record the selector picks punched out. */
  function Erase(base: nat, slots: seq<Slot>, sel: Selector): (r: seq<Slot>)
    ensures |r| == |slots|
    ensures forall i :: 0 <= i < |slots| ==> r[i] == if Picks(sel, base + i, slots[i]) then Hole else slots[i]
  {
    seq(|slots|, i requires 0 <= i < |slots| => if Picks(sel, base + i, slots[i]) then Hole else slots[i])
  }

  function EraseSeqs(base: nat, slots: seq<Slot>, seqs: set<nat>): (r: seq<Slot>)
    ensures |r| == |slots|
    ensures forall i :: 0 <= i < |slots| ==> r[i] == if base + i in seqs then Hole else slots[i]
  {
    seq(|slots|, i requires 0 <= i < |slots| => if base + i in seqs then Hole else slots[i])
  }

  /** The tag is the one asked for, or begins with the prefix asked for. */
  predicate Tagged(f: Filter, tag: Option<string>) {
    match f
    case Eq(v) => tag == Some(v)
    case Glob(p) => tag.Some? && |p| <= |tag.value| && tag.value[..|p|] == p
  }

  /** What a delete leaves: everything at or above its bound or its limit, and every record whose tag
      the filter does not ask for. */
  lemma DeleteLeavesExactly(base: nat, slots: seq<Slot>, sel: Selector, i: nat)
    requires i < |slots| && slots[i].Live?
    ensures Erase(base, slots, sel)[i] ==
            if || sel.bound <= base + i
               || (sel.before.Some? && sel.before.value <= base + i)
               || (sel.filter.Some? && !Tagged(sel.filter.value, slots[i].rec.tag))
            then slots[i] else Hole
  {
  }

  /** Replay of one frame: an append is taken only at the tail (skip rule below it,
      contiguity guard above it); a delete honours its logged bound; floors only rise. */
  function Apply(t: Topic, f: Frame): Topic {
    match f
    case Append(s, rec) => if s == Next(t) then t.(slots := t.slots + [Live(rec)]) else t
    case Delete(sel) => t.(slots := Erase(t.base, t.slots, sel))
    case DeleteSeqs(seqs) => t.(slots := EraseSeqs(t.base, t.slots, seqs))
    case EvictWatermark(e, x) => t.(evictFloor := Max(t.evictFloor, e), expiryFloor := Max(t.expiryFloor, x))
    case HeadWatermark(h) => t.(reserved := Max(t.reserved, h))
  }

  function Replay(t: Topic, frames: seq<Frame>): (r: Topic)
    ensures r.base == t.base && |t.slots| <= |r.slots|
  {
    if frames == [] then t else Apply(Replay(t, frames[..|frames| - 1]), frames[|frames| - 1])
  }

  lemma {:induction false} ReplayConcat(t: Topic, a: seq<Frame>, b: seq<Frame>)
    ensures Replay(t, a + b) == Replay(Replay(t, a), b)
  {
    if b == [] {
      assert a + b == a;
    } else {
      var n := |b| - 1;
      ReplayConcat(t, a, b[..n]);
      ConcatInit(a, b);
    }
  }

  // ---- frames already reflected change nothing ------------------------------

  /** Every effect of the frame is already in the topic. */
  ghost predicate Reflected(t: Topic, f: Frame) {
    match f
    case Append(s, _) => s < Next(t)
    case Delete(sel) => sel.bound <= Next(t) && forall i :: 0 <= i < |t.slots| ==> !Picks(sel, t.base + i, t.slots[i])
    case DeleteSeqs(seqs) => forall s :: s in seqs ==> s < Next(t) && (s >= t.base ==> t.slots[s - t.base].Hole?)
    case EvictWatermark(e, x) => e <= t.evictFloor && x <= t.expiryFloor
    case HeadWatermark(h) => h <= t.reserved
  }

  /** The frame speaks only of what the topic holds when it is logged: a delete is pinned
      at or below the tail, and an append is not past it. */
  predicate Timely(t: Topic, f: Frame) {
    match f
    case Append(s, _) => s <= Next(t)
    case Delete(sel) => sel.bound <= Next(t)
    case DeleteSeqs(seqs) => forall s :: s in seqs ==> s < Next(t)
    case EvictWatermark(_, _) => true
    case HeadWatermark(_) => true
  }

  predicate AllTimely(t: Topic, frames: seq<Frame>) {
    frames == [] ||
    var n := |frames| - 1;
    AllTimely(t, frames[..n]) && Timely(Replay(t, frames[..n]), frames[n])
  }

  lemma ReflectedIsNoop(t: Topic, f: Frame)
    requires Reflected(t, f)
    ensures Apply(t, f) == t
  {
    match f
    case Delete(sel) => assert Erase(t.base, t.slots, sel) == t.slots;
    case DeleteSeqs(seqs) => assert EraseSeqs(t.base, t.slots, seqs) == t.slots;
    case _ =>
  }

  lemma ApplyReflects(t: Topic, f: Frame)
    requires Timely(t, f)
    ensures Reflected(Apply(t, f), f)
  {
  }

  lemma StaysReflected(t: Topic, f: Frame, g: Frame)
    requires Reflected(t, f)
    ensures Reflected(Apply(t, g), f)
  {
  }

  /** Once a timely history is replayed, all its frames are reflected for good. */
  lemma {:induction false} HistoryIsReflected(t: Topic, frames: seq<Frame>, k: nat)
    requires AllTimely(t, frames) && k < |frames|
    ensures Reflected(Replay(t, frames), frames[k])
  {
    var n := |frames| - 1;
    if k < n {
      HistoryIsReflected(t, frames[..n], k);
      StaysReflected(Replay(t, frames[..n]), frames[k], frames[n]);
    } else {
      ApplyReflects(Replay(t, frames[..n]), frames[n]);
    }
  }

  /** Frames already reflected are skipped, whatever their order. */
  lemma {:induction false} ReflectedReplayIsNoop(t: Topic, frames: seq<Frame>)
    requires forall k :: 0 <= k < |frames| ==> Reflected(t, frames[k])
    ensures Replay(t, frames) == t
  {
    if frames != [] {
      var n := |frames| - 1;
      ReflectedReplayIsNoop(t, frames[..n]);
      ReflectedIsNoop(t, frames[n]);
    }
  }

  /** Snapshot overlap: a snapshot that covers `log[..m]`, replayed from any earlier
      position `k`, ends where replaying the whole log ends. */
  lemma SnapshotOverlap(t: Topic, log: seq<Frame>, k: nat, m: nat)
    requires k <= m <= |log| && AllTimely(t, log[..m])
    ensures Replay(Replay(t, log[..m]), log[k..]) == Replay(t, log)
  {
    var snap := Replay(t, log[..m]);
    assert log[k..] == log[k..m] + log[m..] && log == log[..m] + log[m..];
    forall i | 0 <= i < |log[k..m]| ensures Reflected(snap, log[k..m][i]) {
      HistoryIsReflected(t, log[..m], k + i);
      assert log[k..m][i] == log[..m][k + i];
    }
    ReflectedReplayIsNoop(snap, log[k..m]);
    ReplayConcat(snap, log[k..m], log[m..]);
    ReplayConcat(t, log[..m], log[m..]);
  }

  // ---- frames that are no appends -------------------------------------------

  lemma NonAppendsCommute(t: Topic, f: Frame, g: Frame)
    requires !f.Append? && !g.Append?
    ensures Apply(Apply(t, f), g) == Apply(Apply(t, g), f) && Apply(Apply(t, f), f) == Apply(t, f)
  {
    assert Apply(Apply(t, f), g).slots == Apply(Apply(t, g), f).slots;
    assert Apply(Apply(t, f), f).slots == Apply(t, f).slots;
  }

  /** If such a frame is applied last, it does not matter whether it was applied before. */
  lemma LastIsEnough(t: Topic, f: Frame, g: Frame)
    requires !f.Append?
    ensures Apply(Apply(Apply(t, f), g), f) == Apply(Apply(t, g), f)
  {
    assert Apply(Apply(Apply(t, f), g), f).slots == Apply(Apply(t, g), f).slots;
  }

  /** The frame picks no record of the topic. */
  ghost predicate StrikesNone(t: Topic, f: Frame) {
    forall i :: 0 <= i < |t.slots| ==> !Strikes(f, t.base + i, t.slots[i])
  }

  /** Timeliness is needed: a delete logged above the tail strikes a later append when
      it is replayed a second time. */
  lemma UntimelyDeleteStrikesTwice(rec: Rec)
    ensures var log := [Delete(Selector(None, None, 2)), Append(1, rec)];
            && Replay(Fresh(1), log).slots == [Live(rec)]
            && Replay(Replay(Fresh(1), log), log).slots == [Hole]
  {
    var log := [Delete(Selector(None, None, 2)), Append(1, rec)];
    assert log[..1] == [log[0]] && log[..0] == [];
    assert [log[0]][..0] == [];
    var t1 := Apply(Fresh(1), log[0]);
    assert Replay(Fresh(1), log[..1]) == t1 && t1.slots == [];
    var t2 := Replay(Fresh(1), log);
    assert t2 == Apply(t1, log[1]) && t2.slots == [Live(rec)];
    assert Replay(t2, log[..1]) == Apply(t2, log[0]);
    assert Replay(t2, log) == Apply(Apply(t2, log[0]), log[1]);
  }
}
