/** Replay of a topic whose frames lie in several groups, some of which hold none of its appends: the
    reorder pass (`replay_split_topics` in `src/engine/recovery.rs`) puts these last. */
module FragmentReplay {
  import opened TopicLog
  import opened ShardReplay

  // ---- frames that are no appends, in any order -----------------------------

  lemma FramesOfSnoc(a: seq<Tagged>, x: Tagged)
    ensures FramesOf(a + [x])[..|a|] == FramesOf(a) && FramesOf(a + [x])[|a|] == x.f
  {
  }

  /** Frames that are no appends may be replayed in any order: one of them last. */
  lemma {:induction false} OneLast(t: Topic, frames: seq<Frame>, k: nat)
    requires k < |frames| && forall i :: 0 <= i < |frames| ==> !frames[i].Append?
    ensures Replay(t, frames) == Apply(Replay(t, frames[..k] + frames[k + 1..]), frames[k])
  {
    var n := |frames| - 1;
    if k < n {
      var init := frames[..n];
      OneLast(t, init, k);
      var rest := frames[..k] + frames[k + 1..];
      assert rest[..n - 1] == init[..k] + init[k + 1..] && rest[n - 1] == frames[n];
      NonAppendsCommute(Replay(t, rest[..n - 1]), frames[k], frames[n]);
    } else {
      assert frames[..k] + frames[k + 1..] == frames[..n];
    }
  }

  lemma ReplayFramesSnoc(t: Topic, a: seq<Tagged>, x: Tagged)
    ensures Replay(t, FramesOf(a + [x])) == Apply(Replay(t, FramesOf(a)), x.f)
  {
    FramesOfSnoc(a, x);
  }

  ghost predicate Distinct(a: seq<Tagged>) { forall i, j :: 0 <= i < j < |a| ==> a[i] != a[j] }

  ghost predicate NoAppends(a: seq<Tagged>) { forall i :: 0 <= i < |a| ==> !a[i].f.Append? }

  lemma {:induction false} DistinctSize(a: seq<Tagged>)
    requires Distinct(a)
    ensures |set x | x in a| == |a|
  {
    if a != [] {
      var n := |a| - 1;
      DistinctSize(a[..n]);
      assert (set x | x in a) == (set x | x in a[..n]) + {a[n]};
    }
  }

  lemma SameSize(a: seq<Tagged>, b: seq<Tagged>)
    requires SameElements(a, b) && Distinct(a) && Distinct(b)
    ensures |a| == |b|
  {
    DistinctSize(a);
    DistinctSize(b);
    assert (set x | x in a) == (set x | x in b);
  }

  lemma {:induction false} AnyOrder(t: Topic, a: seq<Tagged>, b: seq<Tagged>)
    requires SameElements(a, b) && Distinct(a) && Distinct(b) && NoAppends(a) && NoAppends(b)
    ensures Replay(t, FramesOf(a)) == Replay(t, FramesOf(b))
    decreases |a|
  {
    SameSize(a, b);
    if a != [] {
      var n := |a| - 1;
      assert a[n] in b;
      var k :| 0 <= k < |b| && b[k] == a[n];
      var rest := b[..k] + b[k + 1..];
      WithoutOne(a, b, k);
      AnyOrder(t, a[..n], rest);
      TaggedLast(t, b, k);
      ReplayFramesSnoc(t, a[..n], a[n]);
      assert a == a[..n] + [a[n]];
    }
  }

  lemma TaggedLast(t: Topic, b: seq<Tagged>, k: nat)
    requires k < |b| && NoAppends(b)
    ensures Replay(t, FramesOf(b)) == Apply(Replay(t, FramesOf(b[..k] + b[k + 1..])), b[k].f)
  {
    OneLast(t, FramesOf(b), k);
    assert FramesOf(b)[..k] + FramesOf(b)[k + 1..] == FramesOf(b[..k] + b[k + 1..]);
  }

  lemma WithoutOne(a: seq<Tagged>, b: seq<Tagged>, k: nat)
    requires SameElements(a, b) && Distinct(a) && Distinct(b) && k < |b| && a != [] && b[k] == a[|a| - 1]
    ensures var rest := b[..k] + b[k + 1..]; SameElements(a[..|a| - 1], rest) && Distinct(rest)
  {
    var init, rest := a[..|a| - 1], b[..k] + b[k + 1..];
    assert a == init + [b[k]] && b == b[..k] + [b[k]] + b[k + 1..];
    forall x ensures x in init <==> x in rest {
      assert x in a <==> x in init || x == b[k];
      assert x in b <==> x in rest || x == b[k];
      assert b[k] !in init;
      assert b[k] !in rest;
    }
  }

  /** Such frames commute with each other. */
  lemma {:induction false} OneFirst(t: Topic, a: seq<Tagged>, f: Frame)
    requires NoAppends(a) && !f.Append?
    ensures Replay(Apply(t, f), FramesOf(a)) == Apply(Replay(t, FramesOf(a)), f)
  {
    if a != [] {
      var n := |a| - 1;
      OneFirst(t, a[..n], f);
      assert a == a[..n] + [a[n]];
      ReplayFramesSnoc(t, a[..n], a[n]);
      ReplayFramesSnoc(Apply(t, f), a[..n], a[n]);
      NonAppendsCommute(Replay(t, FramesOf(a[..n])), f, a[n].f);
    }
  }

  /** If they come last, it does not matter whether they came before. */
  lemma {:induction false} AllLastIsEnough(t: Topic, a: seq<Tagged>, g: Frame)
    requires NoAppends(a)
    ensures Replay(Apply(Replay(t, FramesOf(a)), g), FramesOf(a)) == Replay(Apply(t, g), FramesOf(a))
  {
    if a != [] {
      var n := |a| - 1;
      var x, y := Replay(t, FramesOf(a[..n])), a[n].f;
      AllLastIsEnough(t, a[..n], g);
      assert a == a[..n] + [a[n]];
      ReplayFramesSnoc(t, a[..n], a[n]);
      ReplayFramesSnoc(Apply(t, g), a[..n], a[n]);
      ReplayFramesSnoc(Apply(Apply(x, y), g), a[..n], a[n]);
      OneFirst(Apply(Apply(x, y), g), a[..n], y);
      LastIsEnough(x, y, g);
      OneFirst(Apply(x, g), a[..n], y);
    }
  }

  /** `later` makes the same of both topics. */
  ghost predicate Waiting(whole: Topic, u: Topic, later: seq<Tagged>) {
    NoAppends(later) && Replay(whole, FramesOf(later)) == Replay(u, FramesOf(later))
  }

  lemma OneMoreFirst(whole: Topic, u: Topic, later: seq<Tagged>, f: Frame)
    requires Waiting(whole, u, later)
    ensures Waiting(Apply(whole, f), Apply(u, f), later)
  {
    AllLastIsEnough(whole, later, f);
    AllLastIsEnough(u, later, f);
  }

  lemma OneMoreLater(whole: Topic, u: Topic, later: seq<Tagged>, x: Tagged)
    requires Waiting(whole, u, later) && !x.f.Append?
    ensures Waiting(Apply(whole, x.f), u, later + [x])
  {
    ReplayFramesSnoc(u, later, x);
    ReplayFramesSnoc(Apply(whole, x.f), later, x);
    OneFirst(whole, later, x.f);
    NonAppendsCommute(Replay(whole, FramesOf(later)), x.f, x.f);
  }

  lemma PartSnoc(h: seq<Tagged>, x: Tagged, mins: map<nat, nat>)
    ensures var first, later := Part(h, mins, true), Part(h, mins, false);
            && Part(h + [x], mins, true) == (if x.go in mins then first + [x] else first)
            && Part(h + [x], mins, false) == (if x.go in mins then later else later + [x])
  {
    assert (h + [x])[..|h|] == h;
  }

  lemma OneMoreFrame(t: Topic, h: seq<Tagged>, x: Tagged, mins: map<nat, nat>)
    requires Waiting(Replay(t, FramesOf(h)), Replay(t, FramesOf(Part(h, mins, true))), Part(h, mins, false))
    requires x.go !in mins ==> !x.f.Append?
    ensures var h1 := h + [x];
            Waiting(Replay(t, FramesOf(h1)), Replay(t, FramesOf(Part(h1, mins, true))), Part(h1, mins, false))
  {
    var whole, first, later := Replay(t, FramesOf(h)), Part(h, mins, true), Part(h, mins, false);
    ReplayFramesSnoc(t, h, x);
    PartSnoc(h, x, mins);
    if x.go in mins {
      ReplayFramesSnoc(t, first, x);
      OneMoreFirst(whole, Replay(t, FramesOf(first)), later, x.f);
    } else {
      OneMoreLater(whole, Replay(t, FramesOf(first)), later, x);
    }
  }

  /** Replaying the groups without appends behind all others is replaying them once more. */
  lemma {:induction false} FragmentsLast(t: Topic, h: seq<Tagged>, mins: map<nat, nat>)
    requires forall x :: x in h && x.f.Append? ==> x.go in mins
    ensures Waiting(Replay(t, FramesOf(h)), Replay(t, FramesOf(Part(h, mins, true))), Part(h, mins, false))
  {
    if h != [] {
      var n := |h| - 1;
      assert h == h[..n] + [h[n]];
      FragmentsLast(t, h[..n], mins);
      OneMoreFrame(t, h[..n], h[n], mins);
    }
  }

  lemma {:induction false} PartIsDistinct(h: seq<Tagged>, mins: map<nat, nat>, appends: bool)
    requires Distinct(h)
    ensures Distinct(Part(h, mins, appends))
  {
    if h != [] {
      var n := |h| - 1;
      PartIsDistinct(h[..n], mins, appends);
      PartHolds(h[..n], mins, appends, h[n]);
      assert h[n] !in h[..n];
    }
  }

  /** What the reorder pass recovers: the history, with the frames of groups without appends
      replayed once more. */
  lemma ReorderedReplays(t: Topic, h: seq<Tagged>, mins: map<nat, nat>, a: seq<Tagged>)
    requires Distinct(h) && Distinct(a) && SameElements(a, Part(h, mins, false))
    requires forall x :: x in h && x.f.Append? ==> x.go in mins
    ensures Replay(t, FramesOf(Part(h, mins, true) + a)) == Replay(Replay(t, FramesOf(h)), FramesOf(a))
  {
    var first, later := Part(h, mins, true), Part(h, mins, false);
    FragmentsLast(t, h, mins);
    PartIsDistinct(h, mins, false);
    forall k | 0 <= k < |a| ensures !a[k].f.Append? { assert a[k] in later; }
    AnyOrder(Replay(t, FramesOf(first)), a, later);
    AnyOrder(Replay(t, FramesOf(h)), a, later);
    assert FramesOf(first + a) == FramesOf(first) + FramesOf(a);
    ReplayConcat(t, FramesOf(first), FramesOf(a));
  }

  // ---- when a second replay changes nothing ---------------------------------

  /** A watermark that was replayed once. */
  ghost predicate Risen(t: Topic, f: Frame) {
    match f
    case EvictWatermark(e, x) => e <= t.evictFloor && x <= t.expiryFloor
    case HeadWatermark(h) => h <= t.reserved
    case _ => true
  }

  lemma {:induction false} HistoryIsRisen(t: Topic, frames: seq<Frame>, k: nat)
    requires k < |frames|
    ensures Risen(Replay(t, frames), frames[k])
  {
    if k < |frames| - 1 { HistoryIsRisen(t, frames[..|frames| - 1], k); }
  }

  lemma NoopExactlyWhen(t: Topic, f: Frame)
    requires !f.Append? && Risen(t, f)
    ensures Apply(t, f) == t <==> StrikesNone(t, f)
  {
    match f
    case Delete(sel) =>
      if StrikesNone(t, f) { assert Erase(t.base, t.slots, sel) == t.slots; }
    case DeleteSeqs(seqs) =>
      if StrikesNone(t, f) { assert EraseSeqs(t.base, t.slots, seqs) == t.slots; }
    case _ =>
  }

  /** The topic with some records struck and its watermarks raised. */
  ghost predicate Beneath(t: Topic, u: Topic) {
    && u.base == t.base && |u.slots| == |t.slots|
    && forall i :: 0 <= i < |t.slots| ==> u.slots[i] == t.slots[i] || u.slots[i].Hole?
  }

  lemma OneBeneath(t: Topic, u: Topic, f: Frame, g: Frame)
    requires !f.Append? && Beneath(t, u)
    ensures Beneath(t, Apply(u, f)) && StrikesNone(Apply(u, f), f)
    ensures StrikesNone(u, g) ==> StrikesNone(Apply(u, f), g)
  {
    var v := Apply(u, f);
    if StrikesNone(u, g) {
      forall i | 0 <= i < |v.slots| ensures !Strikes(g, v.base + i, v.slots[i]) {
        assert !Strikes(g, u.base + i, u.slots[i]);
      }
    }
  }

  lemma {:induction false} StrikesStay(t: Topic, a: seq<Tagged>, k: nat)
    requires NoAppends(a)
    ensures Beneath(t, Replay(t, FramesOf(a)))
    ensures k < |a| ==> StrikesNone(Replay(t, FramesOf(a)), a[k].f)
  {
    if a != [] {
      var n := |a| - 1;
      StrikesStay(t, a[..n], k);
      assert a == a[..n] + [a[n]];
      ReplayFramesSnoc(t, a[..n], a[n]);
      OneBeneath(t, Replay(t, FramesOf(a[..n])), a[n].f, a[if k < n then k else n].f);
    }
  }

  ghost predicate AllStrikeNone(t: Topic, a: seq<Tagged>) { forall x :: x in a ==> StrikesNone(t, x.f) }

  ghost predicate AllRisen(t: Topic, a: seq<Tagged>) { forall x :: x in a ==> Risen(t, x.f) }

  lemma AllNoopExactlyWhen(t: Topic, a: seq<Tagged>)
    requires NoAppends(a) && AllRisen(t, a)
    ensures Replay(t, FramesOf(a)) == t <==> AllStrikeNone(t, a)
  {
    if Replay(t, FramesOf(a)) == t {
      forall x | x in a ensures StrikesNone(t, x.f) {
        var k :| 0 <= k < |a| && a[k] == x;
        StrikesStay(t, a, k);
      }
    }
    if AllStrikeNone(t, a) { NoneStruck(t, a); }
  }

  lemma {:induction false} NoneStruck(t: Topic, a: seq<Tagged>)
    requires NoAppends(a) && AllRisen(t, a) && AllStrikeNone(t, a)
    ensures Replay(t, FramesOf(a)) == t
  {
    if a != [] {
      var n := |a| - 1;
      NoneStruck(t, a[..n]);
      assert a == a[..n] + [a[n]];
      ReplayFramesSnoc(t, a[..n], a[n]);
      NoopExactlyWhen(t, a[n].f);
    }
  }

  lemma FragmentsAreRisen(t: Topic, h: seq<Tagged>, a: seq<Tagged>)
    requires forall x :: x in a ==> x in h
    ensures AllRisen(Replay(t, FramesOf(h)), a)
  {
    forall x | x in a ensures Risen(Replay(t, FramesOf(h)), x.f) {
      var i :| 0 <= i < |h| && h[i] == x;
      HistoryIsRisen(t, FramesOf(h), i);
    }
  }

  /** The reorder pass recovers what the history replays to, exactly when the frames of groups
      without appends pick none of its records. */
  lemma ReorderedReplaysExactlyWhen(t: Topic, h: seq<Tagged>, mins: map<nat, nat>, a: seq<Tagged>)
    requires Distinct(h) && Distinct(a) && SameElements(a, Part(h, mins, false))
    requires forall x :: x in h && x.f.Append? ==> x.go in mins
    ensures var y := Replay(t, FramesOf(h)); Replay(t, FramesOf(Part(h, mins, true) + a)) == y <==> AllStrikeNone(y, a)
  {
    forall x | x in a ensures x in h && !x.f.Append? { PartHolds(h, mins, false, x); }
    ReorderedReplays(t, h, mins, a);
    FragmentsAreRisen(t, h, a);
    assert forall k :: 0 <= k < |a| ==> a[k] in a;
    AllNoopExactlyWhen(Replay(t, FramesOf(h)), a);
  }
}
