/** The group-ordered replay loop over a whole engine, and its independence of the shard
    layout (`recover_and_open_with` in `src/engine/recovery.rs`). */
module ShardRecovery {
  import opened Common
  import opened TopicLog
  import opened ShardReplay
  import opened FragmentReplay

  /** `r` is what the reorder pass makes of the topic's buffered frames. */
  ghost predicate Reordered(groups: seq<seq<Entry>>, id: nat, r: seq<Tagged>) {
    && (forall x :: x in r <==> HeldBy(groups, id, x))
    && exists mins :: LowestAppends(r, mins) && Sorted(mins, r)
  }

  lemma LowestAppendsOfSame(a: seq<Tagged>, b: seq<Tagged>, mins: map<nat, nat>)
    requires LowestAppends(a, mins) && SameElements(a, b)
    ensures LowestAppends(b, mins)
  {
    forall k | 0 <= k < |b| && b[k].f.Append? ensures b[k].go in mins && mins[b[k].go] <= b[k].f.s { assert b[k] in a; }
    forall go | go in mins ensures AppendsAt(b, go, mins[go]) {
      assert AppendsAt(a, go, mins[go]);
      var k :| 0 <= k < |a| && a[k].go == go && a[k].f.Append? && a[k].f.s == mins[go];
      assert a[k] in b;
    }
  }

  ghost predicate ReorderedTo(groups: seq<seq<Entry>>, id: nat, t0: Topic, t1: Topic) {
    exists r :: Reordered(groups, id, r) && t1 == Replay(t0, FramesOf(r))
  }

  /** What a topic is recovered to: its frames in stream order, or in reordered order if
      several groups hold some. */
  ghost predicate Recovers(groups: seq<seq<Entry>>, id: nat, t0: Topic, t1: Topic) {
    if IsSplit(groups, id) then ReorderedTo(groups, id, t0, t1) else t1 == Replay(t0, Own(Flat(groups), id))
  }

  lemma EmptyReorder(groups: seq<seq<Entry>>, id: nat, t: Topic)
    requires forall x :: !HeldBy(groups, id, x)
    ensures ReorderedTo(groups, id, t, t)
  {
    assert LowestAppends([], map[]) && Sorted(map[], []);
    assert Reordered(groups, id, []);
    assert FramesOf([]) == [];
  }

  /** Sort one split topic's buffer. */
  method SplitOrder(groups: seq<seq<Entry>>, id: nat, buf: seq<Tagged>) returns (r: seq<Tagged>)
    requires Buffered(groups, |groups|, 0, id, buf)
    ensures Reordered(groups, id, r)
  {
    ghost var mins;
    r, mins := SortFrames(buf);
    LowestAppendsOfSame(buf, r, mins);
  }

  /** Frames of other topics do not concern a topic. */
  lemma OwnSnoc(entries: seq<Entry>, e: Entry, id: nat)
    ensures Own(entries + [e], id) == if e.id == id then Own(entries, id) + [e.f] else Own(entries, id)
  {
    assert (entries + [e])[..|entries|] == entries;
  }

  function Buffer(bufs: map<nat, seq<Tagged>>, id: nat): seq<Tagged> { if id in bufs then bufs[id] else [] }

  /** The buffer holds the topic's frames before place `i` of group `g`, each once. */
  ghost predicate Buffered(groups: seq<seq<Entry>>, g: nat, i: nat, id: nat, buf: seq<Tagged>) {
    && (forall x :: x in buf <==> Held(groups, g, i, id, x))
    && forall a, b :: 0 <= a < b < |buf| ==> buf[a] != buf[b]
  }

  lemma BufferNext(groups: seq<seq<Entry>>, g: nat, i: nat, id: nat, buf: seq<Tagged>)
    requires Buffered(groups, g, i, id, buf) && g < |groups| && i < |groups[g]|
    ensures var x := Tagged(g, i, groups[g][i].f);
            Buffered(groups, g, i + 1, id, if groups[g][i].id == id then buf + [x] else buf)
  {
    var x := Tagged(g, i, groups[g][i].f);
    assert x !in buf;
    forall y ensures Held(groups, g, i + 1, id, y) <==>
        Held(groups, g, i, id, y) || (groups[g][i].id == id && y == x) { }
  }

  lemma BufferNextGroup(groups: seq<seq<Entry>>, g: nat, id: nat, buf: seq<Tagged>)
    requires g < |groups| && Buffered(groups, g, |groups[g]|, id, buf)
    ensures Buffered(groups, g + 1, 0, id, buf)
  {
    forall y ensures Held(groups, g + 1, 0, id, y) <==> Held(groups, g, |groups[g]|, id, y) { }
  }

  ghost predicate AllBuffered(groups: seq<seq<Entry>>, g: nat, i: nat, split: set<nat>, bufs: map<nat, seq<Tagged>>) {
    forall id :: id in split ==> Buffered(groups, g, i, id, Buffer(bufs, id))
  }

  lemma AllBufferedNext(groups: seq<seq<Entry>>, g: nat, i: nat, split: set<nat>, bufs: map<nat, seq<Tagged>>)
    requires AllBuffered(groups, g, i, split, bufs) && g < |groups| && i < |groups[g]|
    ensures var e := groups[g][i];
            AllBuffered(groups, g, i + 1, split,
                if e.id in split then bufs[e.id := Buffer(bufs, e.id) + [Tagged(g, i, e.f)]] else bufs)
  {
    forall id | id in split { BufferNext(groups, g, i, id, Buffer(bufs, id)); }
  }

  /** Every topic that is not split has replayed its own frames of `entries`. */
  ghost predicate Streamed(init: map<nat, Topic>, split: set<nat>, entries: seq<Entry>, topics: map<nat, Topic>) {
    && topics.Keys == init.Keys
    && forall id :: id in init ==> topics[id] == if id in split then init[id] else Replay(init[id], Own(entries, id))
  }

  lemma ReplaySnoc(t: Topic, frames: seq<Frame>, f: Frame)
    ensures Replay(t, frames + [f]) == Apply(Replay(t, frames), f)
  {
    assert (frames + [f])[..|frames|] == frames;
  }

  lemma StreamedTopic(t0: Topic, entries: seq<Entry>, e: Entry, id: nat)
    ensures var t := Replay(t0, Own(entries, id));
            Replay(t0, Own(entries + [e], id)) == if e.id == id then Apply(t, e.f) else t
  {
    OwnSnoc(entries, e, id);
    ReplaySnoc(t0, Own(entries, id), e.f);
  }

  lemma StreamedNext(init: map<nat, Topic>, split: set<nat>, entries: seq<Entry>, topics: map<nat, Topic>, e: Entry)
    requires Streamed(init, split, entries, topics) && e.id in topics
    ensures Streamed(init, split, entries + [e], if e.id in split then topics
            else topics[e.id := Apply(topics[e.id], e.f)])
  {
    var topics1 := if e.id in split then topics else topics[e.id := Apply(topics[e.id], e.f)];
    forall id | id in init && id !in split ensures topics1[id] == Replay(init[id], Own(entries + [e], id)) {
      StreamedTopic(init[id], entries, e, id);
    }
  }

  lemma BuffersAreRegistered(groups: seq<seq<Entry>>, split: set<nat>, bufs: map<nat, seq<Tagged>>,
                             topics: map<nat, Topic>)
    requires AllBuffered(groups, |groups|, 0, split, bufs) && bufs.Keys <= split
    requires forall id :: id in split ==> IsSplit(groups, id)
    requires forall g, i :: 0 <= g < |groups| && 0 <= i < |groups[g]| ==> groups[g][i].id in topics
    ensures forall id :: id in bufs ==> id in topics && Buffered(groups, |groups|, 0, id, bufs[id])
  {
    forall id | id in bufs ensures id in topics && Buffered(groups, |groups|, 0, id, bufs[id]) {
      assert Buffered(groups, |groups|, 0, id, Buffer(bufs, id)) && IsSplit(groups, id);
      var a, b :| 0 <= a < b < |groups| && Mentions(groups[a], id) && Mentions(groups[b], id);
      var k :| 0 <= k < |groups[a]| && groups[a][k].id == id;
    }
  }

  class Engine {
    var topics: map<nat, Topic>

    constructor (registered: map<nat, Topic>)
      ensures topics == registered
    {
      topics := registered;
    }

    /** Replay one topic's reordered frames. */
    method ReplayTopic(id: nat, frames: seq<Tagged>)
      requires id in topics
      modifies this
      ensures topics == old(topics)[id := Replay(old(topics)[id], FramesOf(frames))]
    {
      for i := 0 to |frames|
        invariant topics == old(topics)[id := Replay(old(topics)[id], FramesOf(frames[..i]))]
      {
        assert FramesOf(frames[..i + 1])[..i] == FramesOf(frames[..i]);
        topics := topics[id := Apply(topics[id], frames[i].f)];
      }
      assert frames[..|frames|] == frames;
    }

    /** Stream every group: frames of split topics are buffered, all others applied. */
    method StreamGroups(groups: seq<seq<Entry>>, split: set<nat>) returns (bufs: map<nat, seq<Tagged>>)
      requires forall g, i :: 0 <= g < |groups| && 0 <= i < |groups[g]| ==> groups[g][i].id in topics
      modifies this
      ensures Streamed(old(topics), split, Flat(groups), topics)
      ensures AllBuffered(groups, |groups|, 0, split, bufs) && bufs.Keys <= split
    {
      bufs := map[];
      for g := 0 to |groups|
        invariant Streamed(old(topics), split, Flat(groups[..g]), topics)
        invariant AllBuffered(groups, g, 0, split, bufs) && bufs.Keys <= split
      {
        ghost var seen := Flat(groups[..g]);
        assert seen + groups[g][..0] == seen;
        for i := 0 to |groups[g]|
          invariant Streamed(old(topics), split, seen + groups[g][..i], topics)
          invariant AllBuffered(groups, g, i, split, bufs) && bufs.Keys <= split
        {
          var e := groups[g][i];
          TakeNext(seen, groups[g], i);
          StreamedNext(old(topics), split, seen + groups[g][..i], topics, e);
          AllBufferedNext(groups, g, i, split, bufs);
          if e.id in split {
            bufs := bufs[e.id := Buffer(bufs, e.id) + [Tagged(g, i, e.f)]];
          } else {
            topics := topics[e.id := Apply(topics[e.id], e.f)];
          }
        }
        forall id | id in split { BufferNextGroup(groups, g, id, Buffer(bufs, id)); }
        assert groups[g][..|groups[g]|] == groups[g] && groups[..g + 1][..g] == groups[..g];
      }
      assert groups[..|groups|] == groups;
    }

    /** Replay each split topic's buffered frames in reordered order. */
    method ReplaySplitTopics(groups: seq<seq<Entry>>, bufs: map<nat, seq<Tagged>>)
      requires forall id :: id in bufs ==> id in topics && Buffered(groups, |groups|, 0, id, bufs[id])
      modifies this
      ensures topics.Keys == old(topics.Keys)
      ensures forall id :: id in topics && id !in bufs ==> topics[id] == old(topics)[id]
      ensures forall id :: id in bufs ==> ReorderedTo(groups, id, old(topics)[id], topics[id])
    {
      var left := bufs.Keys;
      while left != {}
        invariant left <= bufs.Keys && topics.Keys == old(topics.Keys)
        invariant forall id :: id in topics && (id in left || id !in bufs) ==> topics[id] == old(topics)[id]
        invariant forall id :: id in bufs && id !in left ==> ReorderedTo(groups, id, old(topics)[id], topics[id])
      {
        var id :| id in left;
        left := left - {id};
        var r := SplitOrder(groups, id, bufs[id]);
        ReplayTopic(id, r);
      }
    }

    /** Replay every group into the registered topics. */
    method ReplayGroups(groups: seq<seq<Entry>>)
      requires forall g, i :: 0 <= g < |groups| && 0 <= i < |groups[g]| ==> groups[g][i].id in topics
      modifies this
      ensures topics.Keys == old(topics.Keys)
      ensures forall id :: id in topics ==> Recovers(groups, id, old(topics)[id], topics[id])
    {
      ghost var init := topics;
      var split := FindSplitTopics(groups);
      var bufs := StreamGroups(groups, split);
      BuffersAreRegistered(groups, split, bufs, topics);
      ReplaySplitTopics(groups, bufs);
      forall id | id in topics ensures Recovers(groups, id, init[id], topics[id]) {
        if IsSplit(groups, id) && id !in bufs { EmptyReorder(groups, id, init[id]); }
      }
    }
  }

  // ---- the layout does not matter -------------------------------------------

  lemma {:induction false} OwnConcat(a: seq<Entry>, b: seq<Entry>, id: nat)
    ensures Own(a + b, id) == Own(a, id) + Own(b, id)
  {
    if b == [] {
      assert a + b == a;
    } else {
      var n := |b| - 1;
      ConcatInit(a, b);
      OwnConcat(a, b[..n], id);
      ConcatAssoc(Own(a, id), Own(b[..n], id), if b[n].id == id then [b[n].f] else []);
    }
  }

  lemma {:induction false} OwnNone(entries: seq<Entry>, id: nat)
    requires !Mentions(entries, id)
    ensures Own(entries, id) == []
  {
    if entries != [] {
      var n := |entries| - 1;
      forall k | 0 <= k < n ensures entries[..n][k].id != id { assert entries[k].id != id; }
      OwnNone(entries[..n], id);
      assert entries[n].id != id;
    }
  }

  lemma {:induction false} OwnInOneGroup(groups: seq<seq<Entry>>, id: nat, g: nat)
    requires g < |groups| && forall k :: 0 <= k < |groups| && k != g ==> !Mentions(groups[k], id)
    ensures Own(Flat(groups), id) == Own(groups[g], id)
  {
    var n := |groups| - 1;
    OwnConcat(Flat(groups[..n]), groups[n], id);
    if g < n {
      OwnInOneGroup(groups[..n], id, g);
      OwnNone(groups[n], id);
    } else {
      OwnInNoGroup(groups[..n], id);
    }
  }

  lemma {:induction false} OwnInNoGroup(groups: seq<seq<Entry>>, id: nat)
    requires forall k :: 0 <= k < |groups| ==> !Mentions(groups[k], id)
    ensures Own(Flat(groups), id) == []
  {
    if groups != [] {
      var n := |groups| - 1;
      OwnInNoGroup(groups[..n], id);
      OwnConcat(Flat(groups[..n]), groups[n], id);
      OwnNone(groups[n], id);
    }
  }

  // ---- any layout -----------------------------------------------------------

  /** The groups hold the topic's history: all in one group, or one consecutive chunk in each of
      several groups, in any order. */
  ghost predicate Routed(groups: seq<seq<Entry>>, id: nat, history: seq<Frame>) {
    if IsSplit(groups, id) then exists h :: Chunked(groups, id, h) && history == FramesOf(h)
    else exists g :: 0 <= g < |groups| && history == Own(groups[g], id) && forall k ::
        0 <= k < |groups| && k != g ==> !Mentions(groups[k], id)
  }

  ghost predicate GroupAppends(groups: seq<seq<Entry>>, id: nat, go: nat) {
    exists x :: HeldBy(groups, id, x) && x.go == go && x.f.Append?
  }

  /** No delete in a group without appends of the topic picks any of its records. */
  ghost predicate Settled(groups: seq<seq<Entry>>, id: nat, t: Topic) {
    forall x :: HeldBy(groups, id, x) && !GroupAppends(groups, id, x.go) ==> StrikesNone(t, x.f)
  }

  lemma CountedExactlyWhen(groups: seq<seq<Entry>>, id: nat, r: seq<Tagged>, mins: map<nat, nat>, go: nat)
    requires LowestAppends(r, mins) && forall x :: x in r <==> HeldBy(groups, id, x)
    ensures go in mins <==> GroupAppends(groups, id, go)
  {
    if go in mins {
      assert AppendsAt(r, go, mins[go]);
      var k :| 0 <= k < |r| && r[k].go == go && r[k].f.Append? && r[k].f.s == mins[go];
      assert r[k] in r;
    }
    if GroupAppends(groups, id, go) {
      var x :| HeldBy(groups, id, x) && x.go == go && x.f.Append?;
      assert x in r;
    }
  }

  lemma SettledExactlyWhen(groups: seq<seq<Entry>>, id: nat, r: seq<Tagged>, mins: map<nat, nat>, t: Topic)
    requires LowestAppends(r, mins) && forall x :: x in r <==> HeldBy(groups, id, x)
    ensures Settled(groups, id, t) <==> AllStrikeNone(t, Part(r, mins, false))
  {
    forall x ensures x in Part(r, mins, false) <==> HeldBy(groups, id, x) && !GroupAppends(groups, id, x.go) {
      PartHolds(r, mins, false, x);
      CountedExactlyWhen(groups, id, r, mins, x.go);
    }
  }

  lemma SplitReplaysExactlyWhen(groups: seq<seq<Entry>>, id: nat, h: seq<Tagged>, r: seq<Tagged>, t: Topic)
    requires Chunked(groups, id, h) && Reordered(groups, id, r)
    ensures Replay(t, FramesOf(r)) == Replay(t, FramesOf(h)) <==> Settled(groups, id, Replay(t, FramesOf(h)))
  {
    var mins :| LowestAppends(r, mins) && Sorted(mins, r);
    ReorderRebuildsHistory(groups, id, h, r, mins, r);
    SettledExactlyWhen(groups, id, r, mins, Replay(t, FramesOf(h)));
    PartsReplay(groups, id, h, r, mins, Part(r, mins, false), t);
  }

  lemma PartsReplay(groups: seq<seq<Entry>>, id: nat, h: seq<Tagged>, r: seq<Tagged>, mins: map<nat, nat>,
                    a: seq<Tagged>, t: Topic)
    requires Chunked(groups, id, h) && (forall x :: x in r <==> HeldBy(groups, id, x)) && LowestAppends(r, mins)
    requires r == Part(h, mins, true) + a && SameElements(a, Part(h, mins, false)) && Sorted(mins, a)
    ensures var y := Replay(t, FramesOf(h)); Replay(t, FramesOf(r)) == y <==> AllStrikeNone(y, a)
  {
    forall x | x in h && x.f.Append? ensures x.go in mins { assert x in r; }
    ReorderedReplaysExactlyWhen(t, h, mins, a);
  }

  /** Whatever groups a topic's history was routed to, and however the groups are ordered on
      disk, it is recovered by replaying that history in logged order, if and only if no delete in
      a group that holds no append of the topic picks a record the history leaves. Timely
      histories are recovered so. */
  lemma ReplayIsShardCountAgnostic(groups: seq<seq<Entry>>, id: nat, history: seq<Frame>, t0: Topic, t1: Topic)
    requires Routed(groups, id, history) && Recovers(groups, id, t0, t1)
    ensures t1 == Replay(t0, history) <==> (IsSplit(groups, id) ==> Settled(groups, id, Replay(t0, history)))
    ensures AllTimely(t0, history) ==> t1 == Replay(t0, history)
  {
    if IsSplit(groups, id) {
      var h :| Chunked(groups, id, h) && history == FramesOf(h);
      var r :| Reordered(groups, id, r) && t1 == Replay(t0, FramesOf(r));
      SplitReplaysExactlyWhen(groups, id, h, r, t0);
      if AllTimely(t0, history) { TimelyIsSettled(groups, id, h, t0); }
    } else {
      var g :| 0 <= g < |groups| && history == Own(groups[g], id) && forall k :: 0 <= k < |groups| && k != g ==>
          !Mentions(groups[k], id);
      OwnInOneGroup(groups, id, g);
    }
  }

  lemma TimelyIsSettled(groups: seq<seq<Entry>>, id: nat, h: seq<Tagged>, t: Topic)
    requires Chunked(groups, id, h) && AllTimely(t, FramesOf(h))
    ensures Settled(groups, id, Replay(t, FramesOf(h)))
  {
    forall x | HeldBy(groups, id, x) ensures StrikesNone(Replay(t, FramesOf(h)), x.f) {
      assert x in h;
      var i :| 0 <= i < |h| && h[i] == x;
      HistoryIsReflected(t, FramesOf(h), i);
    }
  }

  // ---- a group without appends whose delete was not timely ------------------

  /** A delete logged above the tail, alone in the second group, and the append behind it in the
      first. */
  function Untimely(rec: Rec): seq<Tagged> {
    [Tagged(1, 0, Delete(Selector(None, None, 2))), Tagged(0, 0, Append(1, rec))]
  }

  function UntimelyGroups(rec: Rec): seq<seq<Entry>> {
    [[Entry(1, Untimely(rec)[1].f)], [Entry(1, Untimely(rec)[0].f)]]
  }

  lemma UntimelyHeld(rec: Rec, x: Tagged)
    ensures HeldBy(UntimelyGroups(rec), 1, x) <==> x in Untimely(rec)
  {
  }

  lemma UntimelyReorder(rec: Rec, r: seq<Tagged>)
    requires r == [Untimely(rec)[1], Untimely(rec)[0]]
    ensures Reordered(UntimelyGroups(rec), 1, r)
  {
    forall x ensures x in r <==> HeldBy(UntimelyGroups(rec), 1, x) { UntimelyHeld(rec, x); }
    var mins: map<nat, nat> := map[0 := 1];
    assert r[0].go == 0 && AppendsAt(r, 0, 1);
    assert LowestAppends(r, mins) && Sorted(mins, r);
  }

  lemma TwoFrames(t: Topic, f: Frame, g: Frame)
    ensures Replay(t, [f, g]) == Apply(Apply(t, f), g)
  {
    assert [f, g][..1] == [f] && [f][..0] == [];
    assert Replay(t, [f]) == Apply(t, f);
  }

  /** Timeliness is needed: the reorder pass replays the delete behind the append and strikes it. */
  lemma UntimelyFragmentStrikes(rec: Rec, t1: Topic)
    requires t1 == Topic(1, [Hole], 0, 0, 0)
    ensures var groups, h := UntimelyGroups(rec), Untimely(rec);
            && IsSplit(groups, 1) && Chunked(groups, 1, h) && Replay(Fresh(1), FramesOf(h)).slots == [Live(rec)]
            && Recovers(groups, 1, Fresh(1), t1)
  {
    var groups, h := UntimelyGroups(rec), Untimely(rec);
    forall x ensures x in h <==> HeldBy(groups, 1, x) { UntimelyHeld(rec, x); }
    assert groups[0][0].id == 1 && groups[1][0].id == 1;
    assert Mentions(groups[0], 1) && Mentions(groups[1], 1);
    var f, g, r := h[0].f, h[1].f, [h[1], h[0]];
    assert FramesOf(h) == [f, g] && FramesOf(r) == [g, f];
    TwoFrames(Fresh(1), f, g);
    TwoFrames(Fresh(1), g, f);
    assert Apply(Apply(Fresh(1), g), f).slots == [Hole];
    UntimelyReorder(rec, r);
  }
}
