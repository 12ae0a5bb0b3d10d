/** Replay of many topics from many WAL groups (`find_split_topics`, `replay_split_topics`
    and the group-ordered loop of `recover_and_open_with` in `src/engine/recovery.rs`). */
module ShardReplay {
  import opened TopicLog

  /** A logged frame of topic `id`; id 0 marks frames of no topic. */
  datatype Entry = Entry(id: nat, f: Frame)

  /** A buffered frame with the group it came from and its place there. */
  datatype Tagged = Tagged(go: nat, idx: nat, f: Frame)

  /** The groups hold `x` for topic `id` before place `i` of group `g`. */
  predicate Held(groups: seq<seq<Entry>>, g: nat, i: nat, id: nat, x: Tagged) {
    && x.go < |groups| && x.idx < |groups[x.go]| && groups[x.go][x.idx] == Entry(id, x.f)
    && (x.go < g || (x.go == g && x.idx < i))
  }

  predicate HeldBy(groups: seq<seq<Entry>>, id: nat, x: Tagged) { Held(groups, |groups|, 0, id, x) }

  predicate Mentions(group: seq<Entry>, id: nat) { exists k :: 0 <= k < |group| && group[k].id == id }

  /** The topic's frames appear in more than one group. */
  predicate IsSplit(groups: seq<seq<Entry>>, id: nat) {
    id != 0 && exists a, b :: 0 <= a < b < |groups| && Mentions(groups[a], id) && Mentions(groups[b], id)
  }

  // ---- the reorder pass -----------------------------------------------------

  ghost predicate AppendsAt(frames: seq<Tagged>, go: nat, s: nat) {
    exists k :: 0 <= k < |frames| && frames[k].go == go && frames[k].f.Append? && frames[k].f.s == s
  }

  /** `mins` gives each group with appends its lowest append seq. */
  ghost predicate LowestAppends(frames: seq<Tagged>, mins: map<nat, nat>) {
    && (forall k :: 0 <= k < |frames| && frames[k].f.Append? ==>
         frames[k].go in mins && mins[frames[k].go] <= frames[k].f.s)
    && (forall go :: go in mins ==> AppendsAt(frames, go, mins[go]))
  }

  /** The sort key order: groups without appends last, then lowest append, group, place. */
  predicate Before(mins: map<nat, nat>, x: Tagged, y: Tagged) {
    var rx, ry := if x.go in mins then mins[x.go] else 0, if y.go in mins then mins[y.go] else 0;
    if (x.go in mins) != (y.go in mins) then x.go in mins
    else if rx != ry then rx < ry
    else if x.go != y.go then x.go < y.go
    else x.idx < y.idx
  }

  ghost predicate Sorted(mins: map<nat, nat>, r: seq<Tagged>) {
    forall i, j :: 0 <= i < j < |r| ==> Before(mins, r[i], r[j])
  }

  ghost predicate SameElements(a: seq<Tagged>, b: seq<Tagged>) { forall x :: x in a <==> x in b }

  /** Two places of one topic never carry the same group and index. */
  ghost predicate DistinctPlaces(frames: seq<Tagged>) {
    forall x, y :: x in frames && y in frames && x.go == y.go && x.idx == y.idx ==> x == y
  }

  method FindLowestAppends(frames: seq<Tagged>) returns (mins: map<nat, nat>)
    ensures LowestAppends(frames, mins)
  {
    mins := map[];
    for i := 0 to |frames|
      invariant LowestAppends(frames[..i], mins)
    {
      ghost var was := mins;
      var x := frames[i];
      if x.f.Append? && (x.go !in mins || x.f.s < mins[x.go]) {
        mins := mins[x.go := x.f.s];
      }
      forall go | go in mins ensures AppendsAt(frames[..i + 1], go, mins[go]) {
        if go in was && mins[go] == was[go] {
          var k :| 0 <= k < |frames[..i]| && frames[..i][k].go == go && frames[..i][k].f.Append?
              && frames[..i][k].f.s == was[go];
          assert frames[..i + 1][k] == frames[..i][k];
        } else {
          assert frames[..i + 1][i] == x;
        }
      }
    }
    assert frames[..|frames|] == frames;
  }

  lemma BeforeIsTotal(mins: map<nat, nat>, x: Tagged, y: Tagged)
    requires x.go != y.go || x.idx != y.idx
    ensures Before(mins, x, y) <==> !Before(mins, y, x)
  {
  }

  lemma BeforeIsTransitive(mins: map<nat, nat>, x: Tagged, y: Tagged, z: Tagged)
    requires Before(mins, x, y) && Before(mins, y, z)
    ensures Before(mins, x, z)
  {
  }

  lemma InsertedIsSorted(mins: map<nat, nat>, r: seq<Tagged>, x: Tagged, i: nat)
    requires Sorted(mins, r) && i <= |r|
    requires (i > 0 ==> Before(mins, r[i - 1], x)) && (i < |r| ==> Before(mins, x, r[i]))
    ensures Sorted(mins, r[..i] + [x] + r[i..])
  {
    forall k | 0 <= k < i ensures Before(mins, r[k], x) {
      if k < i - 1 { BeforeIsTransitive(mins, r[k], r[i - 1], x); }
    }
    forall k | i <= k < |r| ensures Before(mins, x, r[k]) {
      if k > i { BeforeIsTransitive(mins, x, r[i], r[k]); }
    }
  }

  /** Put `x` into its place of a sorted sequence. */
  method Insert(mins: map<nat, nat>, r: seq<Tagged>, x: Tagged) returns (r1: seq<Tagged>)
    requires Sorted(mins, r) && forall y :: y in r ==> y.go != x.go || y.idx != x.idx
    ensures Sorted(mins, r1) && forall y :: y in r1 <==> y in r || y == x
  {
    var i := |r|;
    while i > 0 && Before(mins, x, r[i - 1])
      invariant 0 <= i <= |r| && (i < |r| ==> Before(mins, x, r[i]))
    {
      i := i - 1;
    }
    if i > 0 {
      assert r[i - 1] in r;
      BeforeIsTotal(mins, x, r[i - 1]);
    }
    InsertedIsSorted(mins, r, x, i);
    r1 := r[..i] + [x] + r[i..];
    assert forall y :: y in r <==> y in r[..i] || y in r[i..] by { assert r == r[..i] + r[i..]; }
  }

  method SortFrames(frames: seq<Tagged>) returns (r: seq<Tagged>, ghost mins: map<nat, nat>)
    requires DistinctPlaces(frames) && forall i, j :: 0 <= i < j < |frames| ==> frames[i] != frames[j]
    ensures LowestAppends(frames, mins) && Sorted(mins, r) && SameElements(r, frames)
  {
    var m := FindLowestAppends(frames);
    r, mins := [], m;
    for i := 0 to |frames|
      invariant Sorted(m, r) && forall x :: x in r <==> x in frames[..i]
    {
      assert frames[i] !in frames[..i];
      r := Insert(m, r, frames[i]);
      assert frames[..i + 1] == frames[..i] + [frames[i]];
    }
    assert frames[..|frames|] == frames;
  }

  lemma {:induction false} SortedIsUnique(mins: map<nat, nat>, a: seq<Tagged>, b: seq<Tagged>)
    requires Sorted(mins, a) && Sorted(mins, b) && SameElements(a, b)
    ensures a == b
  {
    if a == [] {
      assert forall k :: 0 <= k < |b| ==> b[k] in b;
    } else {
      assert a[0] in b && b != [] && b[0] in a;
      assert a[0] == b[0];
      forall x ensures x in a[1..] <==> x in b[1..] {
        assert x in a <==> x == a[0] || x in a[1..] by { assert a == [a[0]] + a[1..]; }
        assert x in b <==> x == b[0] || x in b[1..] by { assert b == [b[0]] + b[1..]; }
        assert !Before(mins, a[0], a[0]);
      }
      SortedIsUnique(mins, a[1..], b[1..]);
    }
  }

  // ---- the reorder pass rebuilds the logged order ---------------------------

  function FramesOf(r: seq<Tagged>): seq<Frame> { seq(|r|, i requires 0 <= i < |r| => r[i].f) }

  ghost predicate InOrder(h: seq<Tagged>) {
    forall i, j :: 0 <= i < j < |h| && h[i].go == h[j].go ==> h[i].idx < h[j].idx
  }

  ghost predicate Consecutive(h: seq<Tagged>) {
    forall i, k, j :: 0 <= i < k < j < |h| && h[i].go == h[j].go ==> h[k].go == h[i].go
  }

  ghost predicate AppendsAscend(h: seq<Tagged>) {
    forall i, j :: 0 <= i < j < |h| && h[i].f.Append? && h[j].f.Append? ==> h[i].f.s < h[j].f.s
  }

  /** `h` is a topic's history as the groups hold it: each group holds one consecutive chunk
      of it, in logged order, and appends ascend. */
  ghost predicate Chunked(groups: seq<seq<Entry>>, id: nat, h: seq<Tagged>) {
    && (forall x :: x in h <==> HeldBy(groups, id, x))
    && InOrder(h) && Consecutive(h) && AppendsAscend(h)
  }

  lemma ChunksDoNotOverlap(h: seq<Tagged>, i: nat, k: nat, j: nat, l: nat)
    requires Consecutive(h) && i < j < |h| && k < |h| && l < |h|
    requires h[i].go == h[k].go && h[j].go == h[l].go && h[i].go != h[j].go
    ensures k < l
  {
  }

  /** A group with appends has its lowest one somewhere in the history. */
  lemma AppendOf(h: seq<Tagged>, frames: seq<Tagged>, mins: map<nat, nat>, i: nat) returns (k: nat)
    requires SameElements(frames, h) && LowestAppends(frames, mins) && i < |h| && h[i].go in mins
    ensures k < |h| && h[k].go == h[i].go && h[k].f.Append? && h[k].f.s == mins[h[i].go]
  {
    assert AppendsAt(frames, h[i].go, mins[h[i].go]);
    var b :| 0 <= b < |frames| && frames[b].go == h[i].go && frames[b].f.Append? && frames[b].f.s == mins[h[i].go];
    assert frames[b] in h;
    k :| 0 <= k < |h| && h[k] == frames[b];
  }

  /** A chunk that comes earlier in the history has the lower lowest append. */
  lemma ChunksAscend(h: seq<Tagged>, frames: seq<Tagged>, mins: map<nat, nat>, i: nat, j: nat)
    requires Consecutive(h) && AppendsAscend(h) && SameElements(frames, h) && LowestAppends(frames, mins)
    requires i < j < |h| && h[i].go != h[j].go && h[i].go in mins && h[j].go in mins
    ensures mins[h[i].go] < mins[h[j].go]
  {
    var k := AppendOf(h, frames, mins, i);
    var l := AppendOf(h, frames, mins, j);
    ChunksDoNotOverlap(h, i, k, j, l);
  }

  /** The frames of groups with appends, or of those without. */
  ghost function Part(h: seq<Tagged>, mins: map<nat, nat>, appends: bool): seq<Tagged> {
    if h == [] then [] else
    var n := |h| - 1;
    Part(h[..n], mins, appends) + (if (h[n].go in mins) == appends then [h[n]] else [])
  }

  lemma {:induction false} PartHolds(h: seq<Tagged>, mins: map<nat, nat>, appends: bool, x: Tagged)
    ensures x in Part(h, mins, appends) <==> x in h && (x.go in mins) == appends
  {
    if h != [] {
      PartHolds(h[..|h| - 1], mins, appends, x);
      assert h == h[..|h| - 1] + [h[|h| - 1]];
    }
  }

  lemma {:induction false} PartIsSorted(h: seq<Tagged>, mins: map<nat, nat>, appends: bool)
    requires forall i, j :: 0 <= i < j < |h| && (h[i].go in mins) == (h[j].go in mins) == appends ==>
               Before(mins, h[i], h[j])
    ensures Sorted(mins, Part(h, mins, appends))
  {
    if h != [] {
      var n := |h| - 1;
      PartIsSorted(h[..n], mins, appends);
      forall x | x in Part(h[..n], mins, appends) ensures x in h[..n] && (x.go in mins) == appends {
        PartHolds(h[..n], mins, appends, x);
      }
    }
  }

  lemma {:induction false} WholePart(h: seq<Tagged>, mins: map<nat, nat>)
    requires forall x :: x in h ==> x.go in mins
    ensures Part(h, mins, true) == h && Part(h, mins, false) == []
  {
    if h != [] {
      assert h[|h| - 1] in h && forall x :: x in h[..|h| - 1] ==> x in h;
      WholePart(h[..|h| - 1], mins);
    }
  }

  /** Sorted, groups without appends come last. */
  lemma {:induction false} SortedSplits(r: seq<Tagged>, mins: map<nat, nat>)
    requires Sorted(mins, r)
    ensures r == Part(r, mins, true) + Part(r, mins, false)
  {
    if r != [] {
      var n := |r| - 1;
      SortedSplits(r[..n], mins);
      if r[n].go in mins {
        assert forall i :: 0 <= i < n ==> Before(mins, r[i], r[n]);
        WholePart(r[..n], mins);
      }
    }
  }

  /** Sorting the buffered frames by lowest append rebuilds the logged order of the groups with
      appends, and puts the others behind it. */
  lemma ReorderRebuildsHistory(groups: seq<seq<Entry>>, id: nat, h: seq<Tagged>, frames: seq<Tagged>,
                               mins: map<nat, nat>, r: seq<Tagged>)
    requires Chunked(groups, id, h) && LowestAppends(frames, mins) && Sorted(mins, r) && SameElements(r, frames)
    requires forall x :: x in frames <==> HeldBy(groups, id, x)
    ensures r == Part(h, mins, true) + Part(r, mins, false)
    ensures SameElements(Part(r, mins, false), Part(h, mins, false)) && Sorted(mins, Part(r, mins, false))
    ensures (forall x :: x in h ==> x.go in mins) ==> r == h
  {
    forall i, j | 0 <= i < j < |h| && (h[i].go in mins) == (h[j].go in mins) == true ensures Before(mins, h[i], h[j]) {
      if h[i].go != h[j].go { ChunksAscend(h, frames, mins, i, j); }
    }
    PartIsSorted(h, mins, true);
    PartIsSorted(r, mins, true);
    PartIsSorted(r, mins, false);
    SortedSplits(r, mins);
    forall x, b ensures x in Part(r, mins, b) <==> x in Part(h, mins, b) {
      PartHolds(r, mins, b, x);
      PartHolds(h, mins, b, x);
    }
    SortedIsUnique(mins, Part(r, mins, true), Part(h, mins, true));
    if forall x :: x in h ==> x.go in mins {
      WholePart(h, mins);
      assert forall x :: x !in Part(h, mins, false);
      assert forall k :: 0 <= k < |Part(r, mins, false)| ==> Part(r, mins, false)[k] in Part(r, mins, false);
      assert Part(r, mins, false) == [];
    }
  }

  // ---- the whole replay -----------------------------------------------------

  /** The frames of topic `id`, in order. */
  function Own(entries: seq<Entry>, id: nat): seq<Frame> {
    if entries == [] then [] else
    Own(entries[..|entries| - 1], id) + (if entries[|entries| - 1].id == id then [entries[|entries| - 1].f] else [])
  }

  function Flat(groups: seq<seq<Entry>>): seq<Entry> {
    if groups == [] then [] else Flat(groups[..|groups| - 1]) + groups[|groups| - 1]
  }

  /** In how many groups the topic appears. */
  function Groups(groups: seq<seq<Entry>>, id: nat): nat {
    if groups == [] then 0 else
    Groups(groups[..|groups| - 1], id) + (if Mentions(groups[|groups| - 1], id) then 1 else 0)
  }

  lemma {:induction false} GroupsCount(groups: seq<seq<Entry>>, id: nat)
    ensures Groups(groups, id) > 0 <==> exists a :: 0 <= a < |groups| && Mentions(groups[a], id)
    ensures Groups(groups, id) > 1 <==>
            exists a, b :: 0 <= a < b < |groups| && Mentions(groups[a], id) && Mentions(groups[b], id)
  {
    if groups != [] {
      var n := |groups| - 1;
      var init := groups[..n];
      GroupsCount(init, id);
      forall a | 0 <= a < n ensures init[a] == groups[a] { }
    }
  }

  /** A pre-scan of the groups: the topics that appear in more than one. */
  method FindSplitTopics(groups: seq<seq<Entry>>) returns (split: set<nat>)
    ensures 0 !in split && forall id :: id in split <==> IsSplit(groups, id)
  {
    var counts: map<nat, nat> := map[];
    for g := 0 to |groups|
      invariant forall id: nat :: id in counts <==> id != 0 && Groups(groups[..g], id) > 0
      invariant forall id :: id in counts ==> counts[id] == Groups(groups[..g], id)
    {
      var seen: set<nat> := {};
      for i := 0 to |groups[g]|
        invariant forall id :: id in seen <==> id != 0 && Mentions(groups[g][..i], id)
      {
        ghost var before, after := groups[g][..i], groups[g][..i + 1];
        assert after == before + [groups[g][i]];
        forall id: nat ensures Mentions(after, id) <==> Mentions(before, id) || groups[g][i].id == id {
          if Mentions(before, id) {
            var k :| 0 <= k < |before| && before[k].id == id;
            assert after[k].id == id;
          }
          if groups[g][i].id == id { assert after[i].id == id; }
        }
        if groups[g][i].id != 0 {
          seen := seen + {groups[g][i].id};
        }
      }
      assert groups[g][..|groups[g]|] == groups[g];
      assert groups[..g + 1][..g] == groups[..g];
      counts := map id | id in counts.Keys + seen ::
        (if id in counts then counts[id] else 0) + (if id in seen then 1 else 0);
    }
    assert groups[..|groups|] == groups;
    split := set id | id in counts && counts[id] > 1;
    forall id: nat ensures id in split <==> IsSplit(groups, id) { GroupsCount(groups, id); }
  }
}
