/** Forwarding over any graph of routers, cycles included, comes to rest once writes stop:
    the hop cap bounds how much work one record can still cause. */
module Quiesce {
  import opened Common
  import opened Forward
  import RK = RouterKey

  /** A router reads topic `src` and feeds topic `dst`. */
  datatype Edge = Edge(r: Router, src: nat, dst: nat)

  datatype Net = Net(topics: seq<seq<Cell>>, edges: seq<Edge>, cursors: seq<nat>)

  ghost predicate WellFormed(net: Net) {
    && |net.cursors| == |net.edges|
    && forall i :: 0 <= i < |net.edges| ==>
         net.edges[i].src < |net.topics| && net.edges[i].dst < |net.topics|
             && net.cursors[i] <= |net.topics[net.edges[i].src]|
  }

  function Cells(msgs: seq<Msg>): seq<Cell> { seq(|msgs|, i requires 0 <= i < |msgs| => Alive(msgs[i])) }

  /** What a pass of router `i` over `k` cells delivers; `keys` are those already held. */
  function Delivered(net: Net, i: nat, k: nat, keys: set<string>): seq<Msg>
    requires WellFormed(net) && i < |net.edges| && net.cursors[i] + k <= |net.topics[net.edges[i].src]|
  {
    Missing(net.edges[i].r, net.topics[net.edges[i].src], net.cursors[i], net.cursors[i] + k, keys)
  }

  function PassOf(net: Net, i: nat, k: nat, keys: set<string>): Net
    requires WellFormed(net) && i < |net.edges| && net.cursors[i] + k <= |net.topics[net.edges[i].src]|
  {
    var dst := net.edges[i].dst;
    net.(topics := net.topics[dst := net.topics[dst] + Cells(Delivered(net, i, k, keys))],
         cursors := net.cursors[i := net.cursors[i] + k])
  }

  // ---- the potential --------------------------------------------------------

  lemma {:induction false} TimesDistributes(n: nat, a: nat, b: nat)
    ensures Times(n, a + b) == Times(n, a) + Times(n, b)
  {
    if n > 0 { TimesDistributes(n - 1, a, b); }
  }

  /** The work a record with `h` hops can still cause among `n` routers. */
  function Weight(n: nat, h: nat): (w: nat)
    ensures w >= 1
    decreases MAX_HOPS - h
  {
    if h >= MAX_HOPS then 1 else 1 + Times(n, Weight(n, h + 1))
  }

  function CellWeight(n: nat, c: Cell): nat { if c.Gone? then 1 else Weight(n, c.msg.hops) }

  /** The weight of `log[lo..]`. */
  function Pending(n: nat, log: seq<Cell>, lo: nat): nat {
    if |log| <= lo then 0 else Pending(n, log[..|log| - 1], lo) + CellWeight(n, log[|log| - 1])
  }

  /** The pending weight of one router. */
  function PendingOf(net: Net, j: nat): nat
    requires WellFormed(net) && j < |net.edges|
  {
    Pending(|net.edges|, net.topics[net.edges[j].src], net.cursors[j])
  }

  /** The pending weight of the first `m` routers. */
  function Total(net: Net, m: nat): nat
    requires WellFormed(net) && m <= |net.edges|
  {
    if m == 0 then 0 else Total(net, m - 1) + PendingOf(net, m - 1)
  }

  function Potential(net: Net): nat
    requires WellFormed(net)
  {
    Total(net, |net.edges|)
  }

  lemma {:induction false} PendingAppend(n: nat, log: seq<Cell>, more: seq<Cell>, lo: nat)
    requires lo <= |log|
    ensures Pending(n, log + more, lo) == Pending(n, log, lo) + Pending(n, more, 0)
  {
    if more == [] {
      assert log + more == log;
    } else {
      ConcatInit(log, more);
      PendingAppend(n, log, more[..|more| - 1], lo);
    }
  }

  lemma {:induction false} PendingSplit(n: nat, log: seq<Cell>, lo: nat, mid: nat)
    requires lo <= mid <= |log|
    ensures Pending(n, log, lo) == Pending(n, log[..mid], lo) + Pending(n, log, mid)
  {
    if mid < |log| {
      PendingSplit(n, log[..|log| - 1], lo, mid);
      assert log[..|log| - 1][..mid] == log[..mid];
    } else {
      assert log[..mid] == log;
    }
  }

  /** Delivering one copy is paid for by consuming its source cell. */
  lemma CopyPays(n: nat, r: Router, c: Cell, i: nat)
    requires Wanted(r, c)
    ensures CellWeight(n, c) == 1 + Times(n, Weight(n, Copy(r, c.msg, i).hops))
  {
  }

  lemma PendingSnoc(n: nat, msgs: seq<Msg>, m: Msg)
    ensures Pending(n, Cells(msgs + [m]), 0) == Pending(n, Cells(msgs), 0) + Weight(n, m.hops)
  {
    assert Cells(msgs + [m])[..|msgs|] == Cells(msgs);
  }

  lemma PendingOneMore(n: nat, log: seq<Cell>, lo: nat, hi: nat)
    requires lo < hi <= |log|
    ensures Pending(n, log[..hi], lo) == Pending(n, log[..hi - 1], lo) + CellWeight(n, log[hi - 1])
            && CellWeight(n, log[hi - 1]) >= 1
  {
    assert log[..hi][..hi - 1] == log[..hi - 1];
  }

  /** Consuming cells frees at least their number, and what all `n` routers may then have to
      do for the delivered copies. */
  lemma {:induction false} ConsumedPays(n: nat, r: Router, log: seq<Cell>, lo: nat, hi: nat, keys: set<string>,
      app: seq<Msg>)
    requires lo <= hi <= |log| && app == Missing(r, log, lo, hi, keys)
    ensures Pending(n, log[..hi], lo) >= (hi - lo) + Times(n, Pending(n, Cells(app), 0))
    decreases hi
  {
    if lo < hi {
      var before, c := Missing(r, log, lo, hi - 1, keys), log[hi - 1];
      ConsumedPays(n, r, log, lo, hi - 1, keys, before);
      PendingOneMore(n, log, lo, hi);
      if Wanted(r, c) && !(r.exactlyOnce && RK.Key(OriginOf(r, hi - 1)) in keys) {
        var copy := Copy(r, c.msg, hi - 1);
        CopyPays(n, r, c, hi - 1);
        PendingSnoc(n, before, copy);
        TimesDistributes(n, Pending(n, Cells(before), 0), Weight(n, copy.hops));
      } else {
        assert before + [] == before;
      }
    } else {
      assert Cells(app) == [];
      TimesDistributes(n, 0, 0);
    }
  }

  /** How a pass changes the pending weight of one router. */
  lemma OneRouter(net: Net, i: nat, k: nat, keys: set<string>, j: nat)
    requires WellFormed(net) && i < |net.edges| && j < |net.edges|
             && net.cursors[i] + k <= |net.topics[net.edges[i].src]|
    ensures WellFormed(PassOf(net, i, k, keys))
    ensures var n, src := |net.edges|, net.edges[i].src;
            var consumed := if j == i then Pending(n, net.topics[src][..net.cursors[i] + k], net.cursors[i]) else 0;
            PendingOf(PassOf(net, i, k, keys), j) + consumed <= PendingOf(net, j)
                + Pending(n, Cells(Delivered(net, i, k, keys)), 0)
  {
    var n, net1, e, more := |net.edges|, PassOf(net, i, k, keys), net.edges[j], Cells(Delivered(net, i, k, keys));
    if e.src == net.edges[i].dst { PendingAppend(n, net.topics[e.src], more, net1.cursors[j]); }
    if j == i { PendingSplit(n, net.topics[e.src], net.cursors[i], net.cursors[i] + k); }
  }

  /** Router `i` lost at least `consumed`, and no router gained more than `add`. */
  ghost predicate Shifts(net: Net, net1: Net, i: nat, add: nat, consumed: nat)
    requires WellFormed(net) && WellFormed(net1) && |net1.edges| == |net.edges|
  {
    forall j :: 0 <= j < |net.edges| ==>
        PendingOf(net1, j) + (if j == i then consumed else 0) <= PendingOf(net, j) + add
  }

  lemma {:induction false} AllRouters(net: Net, net1: Net, i: nat, add: nat, consumed: nat, m: nat)
    requires WellFormed(net) && WellFormed(net1) && |net1.edges| == |net.edges| && m <= |net.edges|
    requires Shifts(net, net1, i, add, consumed)
    ensures Total(net1, m) + (if i < m then consumed else 0) <= Total(net, m) + Times(m, add)
  {
    if m > 0 {
      AllRouters(net, net1, i, add, consumed, m - 1);
      assert PendingOf(net1, m - 1) + (if m - 1 == i then consumed else 0) <= PendingOf(net, m - 1) + add;
    }
  }

  /** Every pass that consumes anything lowers the potential, by at least what it consumes:
      over any graph, so a run has at most `Potential(net)` progressing passes. */
  lemma PassLowersPotential(net: Net, i: nat, k: nat, keys: set<string>)
    requires WellFormed(net) && i < |net.edges| && net.cursors[i] + k <= |net.topics[net.edges[i].src]|
    ensures var net1 := PassOf(net, i, k, keys); WellFormed(net1) && Potential(net1) + k <= Potential(net)
  {
    var n, net1, e := |net.edges|, PassOf(net, i, k, keys), net.edges[i];
    var add := Pending(n, Cells(Delivered(net, i, k, keys)), 0);
    var consumed := Pending(n, net.topics[e.src][..net.cursors[i] + k], net.cursors[i]);
    OneRouter(net, i, k, keys, i);
    forall j | 0 <= j < n ensures PendingOf(net1, j) + (if j == i then consumed else 0) <= PendingOf(net, j) + add {
      OneRouter(net, i, k, keys, j);
    }
    AllRouters(net, net1, i, add, consumed, n);
    ConsumedPays(n, e.r, net.topics[e.src], net.cursors[i], net.cursors[i] + k, keys, Delivered(net, i, k, keys));
  }

  // ---- the hop cap ----------------------------------------------------------

  ghost predicate Capped(log: seq<Cell>) {
    forall i :: 0 <= i < |log| && log[i].Alive? ==> log[i].msg.hops <= MAX_HOPS
  }

  ghost predicate AllCapped(net: Net) { forall j :: 0 <= j < |net.topics| ==> Capped(net.topics[j]) }

  lemma {:induction false} CopiesAreCapped(r: Router, log: seq<Cell>, lo: nat, hi: nat, keys: set<string>)
    requires hi <= |log|
    ensures forall m :: m in Missing(r, log, lo, hi, keys) ==> m.hops <= MAX_HOPS
    decreases hi
  {
    if lo < hi { CopiesAreCapped(r, log, lo, hi - 1, keys); }
  }

  /** A pass never takes a record past the hop cap. */
  lemma PassKeepsHopCap(net: Net, i: nat, k: nat, keys: set<string>)
    requires WellFormed(net) && i < |net.edges| && net.cursors[i] + k <= |net.topics[net.edges[i].src]|
             && AllCapped(net)
    ensures AllCapped(PassOf(net, i, k, keys))
  {
    var e := net.edges[i];
    CopiesAreCapped(e.r, net.topics[e.src], net.cursors[i], net.cursors[i] + k, keys);
  }
}
