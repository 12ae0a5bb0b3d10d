/** The bounded cache of serialized record frames (`src/engine/broadcast.rs`). */
module BroadcastCache {
  import opened Common

  const RING_CAP: nat := 1024

  /** Which projections of a record a frame holds, packed as the engine packs them. */
  datatype Variant = Variant(data: bool, tags: bool, meta: bool)

  function Bits(v: Variant): nat { (if v.data then 1 else 0) + (if v.tags then 2 else 0) + (if v.meta then 4 else 0) }

  /** Variants never share a cache slot. */
  lemma BitsAreDistinct(v: Variant, w: Variant)
    ensures Bits(v) == Bits(w) <==> v == w
    ensures Bits(v) < 8
  {
  }

  ghost predicate Ascending(order: seq<nat>) { forall i, j :: 0 <= i < j < |order| ==> order[i] < order[j] }

  /** `order` lists the largest elements of `all`, as many as the bound allows. */
  ghost predicate Largest(order: seq<nat>, all: set<nat>) {
    && Ascending(order) && |order| <= RING_CAP
    && (forall x :: x in order ==> x in all)
    && (forall x, y :: x in all && x !in order && y in order ==> x < y)
    && (|order| == RING_CAP || forall x :: x in all ==> x in order)
  }

  /** `r` is `order` with `s` in its place. */
  ghost predicate Inserted(order: seq<nat>, s: nat, r: seq<nat>) {
    Ascending(r) && |r| == |order| + 1 && forall x :: x in r <==> x in order || x == s
  }

  lemma InsertAt(order: seq<nat>, pos: nat, s: nat)
    requires Ascending(order) && pos <= |order|
    requires (forall i :: 0 <= i < pos ==> order[i] < s) && forall i :: pos <= i < |order| ==> s < order[i]
    ensures Inserted(order, s, order[..pos] + [s] + order[pos..])
  {
    assert order == order[..pos] + order[pos..];
  }

  lemma DropFirst(order: seq<nat>)
    requires Ascending(order) && order != []
    ensures Ascending(order[1..]) && (forall x :: x in order[1..] <==> x in order && x != order[0])
    ensures forall x :: x in order[1..] ==> order[0] < x
  {
    assert order == [order[0]] + order[1..];
  }

  /** Inserting a new seq and dropping the least when over the bound keeps the largest. */
  lemma KeepsLargest(order: seq<nat>, all: set<nat>, s: nat, r: seq<nat>)
    requires Largest(order, all) && s !in order && Inserted(order, s, r)
    ensures Largest(if |r| > RING_CAP then r[1..] else r, all + {s})
  {
    if |r| > RING_CAP {
      DropFirst(r);
      assert r[0] in r;
      forall x, y | x in all + {s} && x !in r[1..] && y in r[1..] ensures x < y {
        if x !in r && y == s { assert r[0] in order && x < r[0]; }
      }
    }
  }

  class Cache<F(==)> {
    var order: seq<nat>
    var frames: map<nat, map<nat, F>>
    ghost var inserted: set<nat>

    /** The order is strictly sorted and has the keys of the map, and they are the largest
        seqs ever inserted. */
    ghost predicate Valid()
      reads this
    {
      Largest(order, inserted) && forall s :: s in frames <==> s in order
    }

    constructor ()
      ensures Valid() && inserted == {} && frames == map[]
    {
      order, frames, inserted := [], map[], {};
    }

    function Get(s: nat, v: nat): Option<F>
      reads this
    {
      if s in frames && v in frames[s] then Some(frames[s][v]) else None
    }

    /** Cached frames of a batch of seqs. */
    method GetMany(seqs: seq<nat>, v: nat) returns (out: seq<Option<F>>)
      ensures |out| == |seqs| && forall i :: 0 <= i < |seqs| ==> out[i] == Get(seqs[i], v)
    {
      out := [];
      for i := 0 to |seqs|
        invariant |out| == i && forall k :: 0 <= k < i ==> out[k] == Get(seqs[k], v)
      {
        out := out + [Get(seqs[i], v)];
      }
    }

    /** Where `s` belongs in the order: a binary search. */
    method PartitionPoint(s: nat) returns (pos: nat)
      requires Ascending(order)
      ensures pos <= |order| && (forall i :: 0 <= i < pos ==> order[i] < s) && forall i :: pos <= i < |order| ==>
              s <= order[i]
    {
      var hi := |order|;
      pos := 0;
      while pos < hi
        invariant 0 <= pos <= hi <= |order|
        invariant (forall i :: 0 <= i < pos ==> order[i] < s) && forall i :: hi <= i < |order| ==> s <= order[i]
      {
        var mid := (pos + hi) / 2;
        if order[mid] < s {
          pos := mid + 1;
        } else {
          hi := mid;
        }
      }
    }

    /** The order with a new seq in its place. */
    method Place(s: nat) returns (r: seq<nat>)
      requires Ascending(order) && s !in order
      ensures Inserted(order, s, r)
    {
      if order == [] || order[|order| - 1] < s {
        InsertAt(order, |order|, s);
        r := order + [s];
        assert r == order[..|order|] + [s] + order[|order|..];
      } else {
        var pos := PartitionPoint(s);
        InsertAt(order, pos, s);
        r := order[..pos] + [s] + order[pos..];
      }
    }

    /** Cache a frame of a seq that is not cached; the least seq goes when over the bound. */
    method InsertNew(s: nat, v: nat, f: F)
      requires Valid() && s !in frames
      modifies this
      ensures Valid() && inserted == old(inserted) + {s}
      ensures s in frames ==> frames[s].Keys == {v} && frames[s][v] == f
      ensures forall x :: x in frames && x != s ==> x in old(frames) && frames[x] == old(frames)[x]
    {
      var placed := Place(s);
      KeepsLargest(order, inserted, s, placed);
      if |placed| > RING_CAP { DropFirst(placed); }
      order, inserted := placed, inserted + {s};
      var variants: map<nat, F> := map[v := f];
      frames := frames[s := variants];
      while |order| > RING_CAP
        invariant |order| > RING_CAP ==> order == placed && |placed| == RING_CAP + 1
        invariant |order| <= RING_CAP ==> order == if |placed| > RING_CAP then placed[1..] else placed
        invariant forall x :: x in frames <==> x in order
        invariant s in frames ==> frames[s] == variants
        invariant forall x :: x in frames && x != s ==> x in old(frames) && frames[x] == old(frames)[x]
        invariant inserted == old(inserted) + {s}
      {
        frames := frames - {order[0]};
        order := order[1..];
      }
    }

    /** Insert a serialized frame unless another watcher filled its slot meanwhile. */
    method InsertSerialized(s: nat, v: nat, f: F) returns (r: F)
      requires Valid()
      modifies this
      ensures Valid() && inserted == old(inserted) + {s}
      ensures r == if old(Get(s, v)).Some? then old(Get(s, v)).value else f
      ensures forall x, u :: x in frames && u in frames[x] ==>
                if x == s && u == v then frames[x][u] == r
                    else x in old(frames) && u in old(frames)[x] && frames[x][u] == old(frames)[x][u]
      ensures forall x, u :: x in frames && ((x in old(frames) && u in old(frames)[x]) || (x == s && u == v)) ==>
              u in frames[x]
    {
      r := f;
      if s !in frames {
        InsertNew(s, v, f);
        return;
      }
      assert inserted + {s} == inserted;
      if v in frames[s] {
        return frames[s][v];
      }
      var variants: map<nat, F> := frames[s];
      variants := variants[v := f];
      frames := frames[s := variants];
    }
  }
}
