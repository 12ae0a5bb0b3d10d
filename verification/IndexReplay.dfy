/** Replay of logged frames on an index whose head stands beside its slots: what it keeps, what
    it strikes, and which appends it lets in. */
module IndexReplay {
  import opened Common
  import opened TopicLog
  import opened TopicSnapshot
  import opened WritePath

  // ---- appends that rise ----------------------------------------------------

  /** The appends among the frames rise strictly, from `lo` on and below `hi`. */
  ghost predicate Rises(lo: nat, hi: nat, frames: seq<Frame>)
    decreases |frames|
  {
    if frames == [] then lo <= hi else
    var n := |frames| - 1;
    if frames[n].Append? then frames[n].s < hi && Rises(lo, frames[n].s, frames[..n]) else Rises(lo, hi, frames[..n])
  }

  lemma {:induction false} RisesWider(lo: nat, hi: nat, lo1: nat, hi1: nat, frames: seq<Frame>)
    requires Rises(lo, hi, frames) && lo1 <= lo && hi <= hi1
    ensures Rises(lo1, hi1, frames)
    decreases |frames|
  {
    if frames != [] {
      var n := |frames| - 1;
      if frames[n].Append? {
        RisesWider(lo, frames[n].s, lo1, frames[n].s, frames[..n]);
      } else {
        RisesWider(lo, hi, lo1, hi1, frames[..n]);
      }
    }
  }

  lemma {:induction false} RisesConcat(lo: nat, mid: nat, hi: nat, a: seq<Frame>, b: seq<Frame>)
    requires Rises(lo, mid, a) && Rises(mid, hi, b)
    ensures Rises(lo, hi, a + b)
    decreases |b|
  {
    if b == [] {
      assert a + b == a;
      RisesWider(lo, mid, lo, hi, a);
    } else {
      var n := |b| - 1;
      ConcatInit(a, b);
      RisesConcat(lo, mid, if b[n].Append? then b[n].s else hi, a, b[..n]);
    }
  }

  lemma {:induction false} RisesPrefix(lo: nat, hi: nat, frames: seq<Frame>, k: nat)
    requires Rises(lo, hi, frames) && k <= |frames|
    ensures Rises(lo, hi, frames[..k])
    decreases |frames|
  {
    var n := |frames| - 1;
    if k < |frames| {
      assert frames[..n][..k] == frames[..k];
      if frames[n].Append? { RisesWider(lo, frames[n].s, lo, hi, frames[..n]); }
      RisesPrefix(lo, hi, frames[..n], k);
    } else {
      assert frames[..k] == frames;
    }
  }

  lemma {:induction false} RisesBounds(lo: nat, hi: nat, frames: seq<Frame>)
    requires Rises(lo, hi, frames)
    ensures lo <= hi && forall f :: f in frames && f.Append? ==> lo <= f.s < hi
    decreases |frames|
  {
    if frames != [] {
      var n := |frames| - 1;
      RisesBounds(lo, if frames[n].Append? then frames[n].s else hi, frames[..n]);
      forall f | f in frames && f.Append? ensures lo <= f.s < hi { assert f in frames[..n] || f == frames[n]; }
    }
  }

  lemma {:induction false} AppendedIsIn(frames: seq<Frame>, s: nat)
    ensures s in Appended(frames) <==> exists f :: f in frames && f.Append? && f.s == s
  {
    if frames != [] {
      var n := |frames| - 1;
      AppendedIsIn(frames[..n], s);
      assert forall f :: f in frames <==> f in frames[..n] || f == frames[n];
    }
  }

  // ---- what replay strikes --------------------------------------------------

  lemma StruckSnoc(frames: seq<Frame>, f: Frame, s: nat, slot: Slot)
    ensures StruckBy(frames + [f], s, slot) <==> StruckBy(frames, s, slot) || Strikes(f, s, slot)
  {
    if StruckBy(frames, s, slot) {
      var k :| 0 <= k < |frames| && Strikes(frames[k], s, slot);
      assert (frames + [f])[k] == frames[k];
    }
    if Strikes(f, s, slot) { assert (frames + [f])[|frames|] == f; }
  }

  lemma {:induction false} StruckConcat(a: seq<Frame>, b: seq<Frame>, s: nat, slot: Slot)
    ensures StruckBy(a + b, s, slot) <==> StruckBy(a, s, slot) || StruckBy(b, s, slot)
  {
    if b == [] {
      assert a + b == a;
    } else {
      var n := |b| - 1;
      StruckConcat(a, b[..n], s, slot);
      StruckSnoc(a + b[..n], b[n], s, slot);
      StruckSnoc(b[..n], b[n], s, slot);
      assert a + b == (a + b[..n]) + [b[n]] && b == b[..n] + [b[n]];
    }
  }

  /** A slot that is there stays as it is, unless a delete strikes it. */
  lemma {:induction false} KeepsUnlessStruck(x: Index, frames: seq<Frame>, i: nat)
    requires i < |x.slots|
    ensures TakeAll(x, frames).slots[i] == if StruckBy(frames, x.base + i, x.slots[i]) then Hole else x.slots[i]
  {
    if frames != [] {
      var n := |frames| - 1;
      KeepsUnlessStruck(x, frames[..n], i);
      StruckSnoc(frames[..n], frames[n], x.base + i, x.slots[i]);
      assert frames == frames[..n] + [frames[n]];
    }
  }

  /** What an explicit delete names and finds stays dead. */
  lemma {:induction false} DeletedSeqIsHole(x: Index, frames: seq<Frame>, k: nat, s: nat)
    requires k < |frames| && frames[k].DeleteSeqs? && s in frames[k].seqs
    requires x.base <= s < x.base + |TakeAll(x, frames[..k]).slots|
    ensures s < x.base + |TakeAll(x, frames).slots| && TakeAll(x, frames).slots[s - x.base].Hole?
    decreases |frames|
  {
    var n := |frames| - 1;
    if k < n {
      assert frames[..n][..k] == frames[..k];
      DeletedSeqIsHole(x, frames[..n], k, s);
    }
  }

  // ---- which appends are let in ---------------------------------------------

  /** Every append lies beyond the seq the head would let in. */
  lemma {:induction false} NoneLetIn(x: Index, frames: seq<Frame>)
    requires Plain(frames) && forall f :: f in frames && f.Append? ==> f.s != x.head + 1
    ensures var y := TakeAll(x, frames); |y.slots| == |x.slots| && y.head == x.head && y.reserved == x.reserved
  {
    if frames != [] {
      var n := |frames| - 1;
      assert forall f :: f in frames[..n] ==> f in frames;
      NoneLetIn(x, frames[..n]);
    }
  }

  /** The seq under which the record in a slot behind those of `x` was logged: the first one is let
      in by the head, and from then on the end of the slots is where the head says. */
  function SeqOf(x: Index, i: nat): int { if i == |x.slots| then x.head + 1 else x.base + i }

  lemma {:induction false} LetInUnder(x: Index, frames: seq<Frame>, i: nat)
    requires |x.slots| <= i < |TakeAll(x, frames).slots|
    ensures var y, s := TakeAll(x, frames), SeqOf(x, i);
            Level(y) && s in Appended(frames) && (y.slots[i].Live? ==> s >= 0 && Append(s, y.slots[i].rec) in frames)
  {
    var n := |frames| - 1;
    var before := TakeAll(x, frames[..n]);
    if i < |before.slots| {
      LetInUnder(x, frames[..n], i);
    } else if |x.slots| < i {
      LetInUnder(x, frames[..n], i - 1);
    } else {
      NothingYet(x, frames[..n]);
    }
  }

  /** While nothing is let in the head stays. */
  lemma {:induction false} NothingYet(x: Index, frames: seq<Frame>)
    requires |TakeAll(x, frames).slots| == |x.slots|
    ensures TakeAll(x, frames).head == x.head && (Plain(frames) ==> TakeAll(x, frames).reserved == x.reserved)
  {
    if frames != [] { NothingYet(x, frames[..|frames| - 1]); }
  }

  lemma LevelAtEnd(x: Index, frames: seq<Frame>, i: nat)
    requires |x.slots| <= i && (i == |x.slots| ==> Level(x))
    ensures var y := TakeAll(x, frames); i == |y.slots| ==> Level(y)
  {
    if |x.slots| < |TakeAll(x, frames).slots| { LetInUnder(x, frames, |x.slots|); } else { NothingYet(x, frames); }
  }

  /** A seq no frame from `p` on appends was let in before, if at all. */
  lemma LetInBefore(x: Index, frames: seq<Frame>, p: nat, i: nat)
    requires p <= |frames| && |x.slots| <= i < |TakeAll(x, frames).slots| && (i == |x.slots| ==> Level(x))
    requires x.base + i !in Appended(frames[p..])
    ensures i < |TakeAll(x, frames[..p]).slots|
  {
    assert frames == frames[..p] + frames[p..];
    TakeConcat(x, frames[..p], frames[p..]);
    LevelAtEnd(x, frames[..p], i);
    LetInThen(TakeAll(x, frames[..p]), frames[p..], i);
  }

  lemma LetInThen(y: Index, frames: seq<Frame>, i: nat)
    requires i < |TakeAll(y, frames).slots| && (i == |y.slots| ==> Level(y)) && y.base + i !in Appended(frames)
    ensures i < |y.slots|
  {
    if |y.slots| <= i { LetInUnder(y, frames, i); }
  }

  /** The frames append behind the head. */
  ghost predicate LetsIn(x: Index, frames: seq<Frame>) { exists f :: f in frames && f.Append? && f.s == x.head + 1 }

  /** Frame `k` is the first append behind the head. */
  ghost predicate Opens(x: Index, frames: seq<Frame>, k: nat) {
    k < |frames| && frames[k].Append? && frames[k].s == x.head + 1 && !LetsIn(x, frames[..k])
  }

  /** The first append behind the head is one of this record, and no later delete strikes it at the
      end of the slots. */
  ghost predicate Lands(x: Index, frames: seq<Frame>, rec: Rec) {
    exists k: nat ::
      Opens(x, frames, k) && frames[k].rec == rec && !StruckBy(frames[k + 1..], x.base + |x.slots|, Live(rec))
  }

  lemma LandsIsLetIn(x: Index, frames: seq<Frame>, rec: Rec)
    requires Lands(x, frames, rec)
    ensures x.head >= -1 && Append(x.head + 1, rec) in frames && LetsIn(x, frames)
  {
  }

  lemma NoneLands(x: Index, frames: seq<Frame>, rec: Rec)
    requires forall f :: f in frames && f.Append? ==> f.s != x.head + 1
    ensures !Lands(x, frames, rec)
  {
    assert forall k :: 0 <= k < |frames| ==> frames[k] in frames;
  }

  lemma StruckTail(frames: seq<Frame>, f: Frame, k: nat, s: nat, slot: Slot)
    requires k < |frames|
    ensures StruckBy((frames + [f])[k + 1..], s, slot) <==>
            StruckBy(frames[k + 1..], s, slot) || Strikes(f, s, slot)
  {
    StruckSnoc(frames[k + 1..], f, s, slot);
    assert (frames + [f])[k + 1..] == frames[k + 1..] + [f];
  }

  lemma LetsInSnoc(x: Index, frames: seq<Frame>, f: Frame)
    ensures LetsIn(x, frames + [f]) <==> LetsIn(x, frames) || (f.Append? && f.s == x.head + 1)
  {
    assert f in frames + [f] && forall g :: g in frames ==> g in frames + [f];
  }

  lemma OpensSnoc(x: Index, frames: seq<Frame>, f: Frame, k: nat)
    ensures Opens(x, frames + [f], k) <==>
            Opens(x, frames, k) || (k == |frames| && f.Append? && f.s == x.head + 1 && !LetsIn(x, frames))
  {
    if k <= |frames| { assert (frames + [f])[..k] == frames[..k]; }
    assert frames[..|frames|] == frames;
  }

  lemma LandsSnoc(x: Index, frames: seq<Frame>, f: Frame, rec: Rec)
    ensures Lands(x, frames + [f], rec) <==>
            || (f.Append? && f.s == x.head + 1 && f.rec == rec && !LetsIn(x, frames))
            || (Lands(x, frames, rec) && !Strikes(f, x.base + |x.slots|, Live(rec)))
  {
    var all, s := frames + [f], x.base + |x.slots|;
    if Lands(x, all, rec) {
      var k: nat :| Opens(x, all, k) && all[k].rec == rec && !StruckBy(all[k + 1..], s, Live(rec));
      OpensSnoc(x, frames, f, k);
      if k < |frames| { StruckTail(frames, f, k, s, Live(rec)); }
    }
    if Lands(x, frames, rec) {
      var k: nat :| Opens(x, frames, k) && frames[k].rec == rec && !StruckBy(frames[k + 1..], s, Live(rec));
      OpensSnoc(x, frames, f, k);
      StruckTail(frames, f, k, s, Live(rec));
    }
    OpensSnoc(x, frames, f, |frames|);
    assert all[|frames| + 1..] == [];
  }

  /** What one frame makes of a slot. */
  lemma TakeSlot(y: Index, f: Frame, p: nat, rec: Rec)
    requires p <= |y.slots|
    ensures var z := Take(y, f);
            p < |z.slots| && z.slots[p] == Live(rec) <==>
            || (p < |y.slots| && y.slots[p] == Live(rec) && !Strikes(f, y.base + p, Live(rec)))
            || (p == |y.slots| && f.Append? && f.s == y.head + 1 && f.rec == rec)
  {
  }

  /** Something is let in exactly when an append is behind the head. */
  lemma {:induction false} LetInExactlyWhen(x: Index, frames: seq<Frame>)
    ensures |x.slots| < |TakeAll(x, frames).slots| <==> LetsIn(x, frames)
  {
    if frames != [] {
      var n := |frames| - 1;
      LetInExactlyWhen(x, frames[..n]);
      if |TakeAll(x, frames[..n]).slots| == |x.slots| { NothingYet(x, frames[..n]); }
      LetsInSnoc(x, frames[..n], frames[n]);
      assert frames == frames[..n] + [frames[n]];
    }
  }

  /** What is in the slot behind those of `x`. */
  lemma {:induction false} LandedSlot(x: Index, frames: seq<Frame>, rec: Rec)
    ensures var y, p := TakeAll(x, frames), |x.slots|;
            p < |y.slots| && y.slots[p] == Live(rec) <==> Lands(x, frames, rec)
  {
    if frames != [] {
      var n := |frames| - 1;
      LandedSlot(x, frames[..n], rec);
      LetInExactlyWhen(x, frames[..n]);
      if |TakeAll(x, frames[..n]).slots| == |x.slots| { NothingYet(x, frames[..n]); }
      LandsSnoc(x, frames[..n], frames[n], rec);
      TakeSlot(TakeAll(x, frames[..n]), frames[n], |x.slots|, rec);
      assert frames == frames[..n] + [frames[n]];
    }
  }

  /** What rising appends make of an index whose slots end below its head: at most one is let in,
      the one behind the head, and it lands at the end of the slots. */
  ghost predicate OneShifted(x: Index, frames: seq<Frame>, y: Index) {
    var p := |x.slots|;
    && y.base == x.base && y.reserved == x.reserved
    && if LetsIn(x, frames)
       then && |y.slots| == p + 1 && y.head == x.base + p
            && forall rec :: y.slots[p] == Live(rec) <==> Lands(x, frames, rec)
       else |y.slots| == p && y.head == x.head
  }

  lemma {:induction false} ShortReplay(x: Index, lo: nat, hi: nat, frames: seq<Frame>)
    requires Plain(frames) && Rises(lo, hi, frames) && x.base + |x.slots| <= x.head
    ensures OneShifted(x, frames, TakeAll(x, frames))
    decreases |frames|
  {
    if frames != [] {
      var n := |frames| - 1;
      var f, mid := frames[n], if frames[n].Append? then frames[n].s else hi;
      ShortReplay(x, lo, mid, frames[..n]);
      RisesBounds(lo, mid, frames[..n]);
      assert frames == frames[..n] + [f];
      LetsInSnoc(x, frames[..n], f);
    }
    forall rec { LandedSlot(x, frames, rec); }
  }
}
