/** The banded ready set (`src/sched.rs`): a dirty topic is queued once in its band, and the
    bands are drained highest first. */
module Scheduler {

  const BANDS: nat := 5

  /** The band of an effective priority: 0 is serviced first. */
  function BandOf(priority: int): (b: nat)
    ensures b < BANDS
  {
    if priority >= 750 then 0 else if priority >= 500 then 1 else if priority >= 250 then 2
        else if priority >= 0 then 3 else 4
  }

  /** A higher priority is never serviced after a lower one. */
  lemma BandsAreOrdered(p: int, q: int)
    requires p <= q
    ensures BandOf(q) <= BandOf(p)
  {
  }

  /** The bands begin at 750, 500, 250 and 0. */
  lemma BandsBegin(p: int, b: nat)
    requires b < BANDS - 1
    ensures BandOf(p) <= b <==> p >= 750 - 250 * b
  {
  }

  /** The order a drain services the topics in: band by band, first in first out. */
  function ServiceOrder(queues: seq<seq<string>>): seq<string> {
    if queues == [] then [] else ServiceOrder(queues[..|queues| - 1]) + queues[|queues| - 1]
  }

  /** The i-th topic of a band is serviced behind all topics of the bands before it, and behind the
      first `i` of its own. */
  lemma {:induction false} ServicedInOrder(queues: seq<seq<string>>, b: nat, i: nat)
    requires b < |queues| && i < |queues[b]|
    ensures var before := |ServiceOrder(queues[..b])| + i;
            before < |ServiceOrder(queues)| && ServiceOrder(queues)[before] == queues[b][i]
  {
    var n := |queues| - 1;
    if b < n {
      assert queues[..n][..b] == queues[..b];
      ServicedInOrder(queues[..n], b, i);
    }
  }

  predicate NoRepeats(q: seq<string>) { forall i, j :: 0 <= i < j < |q| ==> q[i] != q[j] }

  lemma {:induction false} ServicedIsQueued(queues: seq<seq<string>>, name: string)
    ensures name in ServiceOrder(queues) <==> exists b :: 0 <= b < |queues| && name in queues[b]
  {
    if queues != [] {
      var n := |queues| - 1;
      ServicedIsQueued(queues[..n], name);
      forall b | 0 <= b < n ensures queues[..n][b] == queues[b] { }
    }
  }

  class ReadySet {
    var queues: seq<seq<string>>
    var dirty: set<string>

    /** There are five bands, and none queues a topic twice. */
    ghost predicate Valid()
      reads this
    {
      && |queues| == BANDS
      && forall b :: 0 <= b < BANDS ==> NoRepeats(queues[b])
    }

    constructor ()
      ensures Valid() && (forall b :: 0 <= b < BANDS ==> queues[b] == []) && dirty == {}
    {
      queues, dirty := [[], [], [], [], []], {};
    }

    /** Queue the topic in its band, behind those already there, unless it is in it. */
    method MarkDirty(name: string, priority: int)
      requires Valid()
      modifies this`queues
      ensures Valid()
      ensures var b := BandOf(priority);
              queues == if name in old(queues)[b] then old(queues) else old(queues)[b := old(queues)[b] + [name]]
    {
      var b := BandOf(priority);
      if name !in queues[b] {
        queues := queues[b := queues[b] + [name]];
      }
    }

    /** Only the first mark since the last clear touches the queues. */
    method MarkDirtyFast(name: string, priority: int)
      requires Valid()
      modifies this
      ensures Valid() && dirty == old(dirty) + {name}
      ensures name in old(dirty) ==> queues == old(queues)
      ensures name !in old(dirty) ==>
                var b := BandOf(priority);
                queues == if name in old(queues)[b] then old(queues) else old(queues)[b := old(queues)[b] + [name]]
    {
      if name in dirty {
        return;
      }
      dirty := dirty + {name};
      MarkDirty(name, priority);
    }

    /** Empty the queues, highest band first, first in first out within a band. */
    method DrainOrder() returns (out: seq<string>)
      requires Valid()
      modifies this`queues
      ensures Valid() && out == ServiceOrder(old(queues)) && forall b :: 0 <= b < BANDS ==> queues[b] == []
    {
      out := [];
      for b := 0 to BANDS
        invariant |queues| == BANDS && out == ServiceOrder(old(queues)[..b])
        invariant forall k :: 0 <= k < BANDS ==> queues[k] == if k < b then [] else old(queues)[k]
      {
        ghost var start, all := out, queues[b];
        while queues[b] != []
          invariant |queues| == BANDS && out + queues[b] == start + all
          invariant forall k :: 0 <= k < BANDS && k != b ==> queues[k] == if k < b then [] else old(queues)[k]
          decreases |queues[b]|
        {
          out := out + [queues[b][0]];
          queues := queues[b := queues[b][1..]];
        }
        assert old(queues)[..b + 1][..b] == old(queues)[..b];
      }
      assert old(queues)[..BANDS] == old(queues);
    }

    /** As `DrainOrder`, clearing the drained topics' dirty flags afterwards. */
    method DrainOrderClearing() returns (out: seq<string>)
      requires Valid()
      modifies this
      ensures Valid() && out == ServiceOrder(old(queues)) && forall b :: 0 <= b < BANDS ==> queues[b] == []
      ensures forall name :: name in dirty <==> name in old(dirty) && name !in out
    {
      out := DrainOrder();
      for i := 0 to |out|
        invariant Valid() && forall b :: 0 <= b < BANDS ==> queues[b] == []
        invariant forall name :: name in dirty <==> name in old(dirty) && name !in out[..i]
      {
        assert out[..i + 1] == out[..i] + [out[i]];
        dirty := dirty - {out[i]};
      }
      assert out[..|out|] == out;
    }
  }
}
