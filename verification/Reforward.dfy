/** The recovery loop that re-forwards every router to a fixed point
    (`reforward_routers_on_recovery` in `src/engine/mod.rs`), over any graph of at-least-once and
    exactly-once routers, between topics that evict nothing. */
module Reforward {
  import opened Common
  import E = Eviction
  import RK = RouterKey
  import opened Forward
  import opened Quiesce

  const GUARD: nat := 1_000_000
  const MAX_PASSES: nat := 64

  /** Some topic holds more records than the inner guard lets one router read in a row. */
  ghost predicate Oversized(topics: seq<seq<Cell>>) { exists j :: 0 <= j < |topics| && |topics[j]| > GUARD * BATCH }

  ghost predicate Grown(topics: seq<seq<Cell>>, topics1: seq<seq<Cell>>) {
    |topics1| == |topics| && forall j :: 0 <= j < |topics| ==> |topics[j]| <= |topics1[j]|
  }

  lemma OversizedStays(topics: seq<seq<Cell>>, topics1: seq<seq<Cell>>)
    requires Grown(topics, topics1) && Oversized(topics)
    ensures Oversized(topics1)
  {
    var j :| 0 <= j < |topics| && |topics[j]| > GUARD * BATCH;
    assert |topics1[j]| > GUARD * BATCH;
  }

  // ---- any order of passes --------------------------------------------------

  /** Some router consumed something. */
  ghost predicate Progress(net: Net, net1: Net) {
    && WellFormed(net)
    && exists i: nat, k: nat, keys: set<string> ::
         i < |net.edges| && k > 0 && net.cursors[i] + k <= |net.topics[net.edges[i].src]|
             && net1 == PassOf(net, i, k, keys)
  }

  /** However passes are scheduled, their number is bounded by the potential. */
  lemma {:induction false} ProgressIsBounded(nets: seq<Net>)
    requires nets != [] && WellFormed(nets[0]) && forall t :: 0 <= t < |nets| - 1 ==> Progress(nets[t], nets[t + 1])
    ensures WellFormed(nets[|nets| - 1]) && |nets| - 1 + Potential(nets[|nets| - 1]) <= Potential(nets[0])
  {
    if |nets| > 1 {
      var n := |nets| - 1;
      ProgressIsBounded(nets[..n]);
      assert Progress(nets[n - 1], nets[n - 1 + 1]);
      var i: nat, k: nat, keys: set<string> :| i < |nets[n - 1].edges| && k > 0
        && nets[n - 1].cursors[i] + k <= |nets[n - 1].topics[nets[n - 1].edges[i].src]|
             && nets[n] == PassOf(nets[n - 1], i, k, keys);
      PassLowersPotential(nets[n - 1], i, k, keys);
    }
  }

  /** Over every run of passes hops never exceed the cap. */
  lemma {:induction false} HopsNeverExceedCap(nets: seq<Net>)
    requires nets != [] && AllCapped(nets[0]) && forall t :: 0 <= t < |nets| - 1 ==> Progress(nets[t], nets[t + 1])
    ensures AllCapped(nets[|nets| - 1])
  {
    if |nets| > 1 {
      var n := |nets| - 1;
      HopsNeverExceedCap(nets[..n]);
      assert Progress(nets[n - 1], nets[n - 1 + 1]);
      var i: nat, k: nat, keys: set<string> :| i < |nets[n - 1].edges| && k > 0
        && nets[n - 1].cursors[i] + k <= |nets[n - 1].topics[nets[n - 1].edges[i].src]|
             && nets[n] == PassOf(nets[n - 1], i, k, keys);
      PassKeepsHopCap(nets[n - 1], i, k, keys);
    }
  }

  // ---- routers that are stuck -----------------------------------------------

  /** The records a topic holds. */
  function Held(cells: seq<Cell>): seq<Msg> {
    if cells == [] then [] else
    var last := cells[|cells| - 1];
    if last.Alive? then Held(cells[..|cells| - 1]) + [last.msg] else Held(cells[..|cells| - 1])
  }

  lemma {:induction false} HeldGrows(cells: seq<Cell>, msgs: seq<Msg>)
    ensures Held(cells + Cells(msgs)) == Held(cells) + msgs
  {
    if msgs == [] {
      assert cells + Cells(msgs) == cells && Held(cells) + [] == Held(cells);
    } else {
      var n := |msgs| - 1;
      HeldGrows(cells, msgs[..n]);
      assert (cells + Cells(msgs))[..|cells| + n] == cells + Cells(msgs[..n]);
      assert Held(cells) + msgs[..n] + [msgs[n]] == Held(cells) + msgs;
    }
  }

  lemma {:induction false} BytesConcat(a: seq<Msg>, b: seq<Msg>)
    ensures Bytes(a + b) == Bytes(a) + Bytes(b)
  {
    if b == [] {
      assert a + b == a;
    } else {
      BytesConcat(a, b[..|b| - 1]);
      ConcatInit(a, b);
    }
  }

  /** The router's next copy is not in the destination and does not fit there. */
  predicate StuckAt(topics: seq<seq<Cell>>, caps: seq<E.Caps>, e: Edge, cursor: nat)
    requires e.src < |topics| && e.dst < |topics| == |caps|
  {
    Blocked(e.r, topics[e.src], cursor, Held(topics[e.dst]), [], caps[e.dst])
  }

  /** The router is caught up or stuck. */
  predicate Resting(r: Router, source: seq<Cell>, cursor: nat, dest: seq<Cell>, caps: E.Caps) {
    cursor == |source| || Blocked(r, source, cursor, Held(dest), [], caps)
  }

  predicate Rests(net: Net, caps: seq<E.Caps>, j: nat)
    requires j < |net.edges| == |net.cursors| && net.edges[j].src < |net.topics|
             && net.edges[j].dst < |net.topics| == |caps|
  {
    var e := net.edges[j];
    Resting(e.r, net.topics[e.src], net.cursors[j], net.topics[e.dst], caps[e.dst])
  }

  /** Every router before `i` is caught up or stuck. */
  ghost predicate RestUpTo(net: Net, caps: seq<E.Caps>, i: nat)
    requires WellFormed(net) && i <= |net.edges| && |caps| == |net.topics|
  {
    forall j :: 0 <= j < i ==> Rests(net, caps, j)
  }

  ghost predicate AllRest(net: Net, caps: seq<E.Caps>)
    requires WellFormed(net) && |caps| == |net.topics|
  {
    RestUpTo(net, caps, |net.edges|)
  }

  /** An at-least-once router into a topic that rejects nothing is never stuck. */
  lemma NeverStuck(topics: seq<seq<Cell>>, caps: seq<E.Caps>, e: Edge, cursor: nat)
    requires e.src < |topics| && e.dst < |topics| == |caps| && !e.r.exactlyOnce && caps[e.dst].discard == E.Old
    ensures !StuckAt(topics, caps, e, cursor)
  {
  }

  lemma {:induction false} MissingKeys(r: Router, log: seq<Cell>, lo: nat, hi: nat, keys: set<string>, m: Msg)
    requires hi <= |log| && r.exactlyOnce && m in Missing(r, log, lo, hi, keys)
    ensures exists k: nat :: lo <= k < hi && RK.MetaKey(m.meta) == Some(RK.Key(OriginOf(r, k)))
    decreases hi
  {
    if m in Missing(r, log, lo, hi - 1, keys) {
      MissingKeys(r, log, lo, hi - 1, keys, m);
    } else {
      RK.MetaKeyRoundTrip(log[hi - 1].msg.meta, OriginOf(r, hi - 1), r.source);
    }
  }

  /** A pass adds no copy of the cell behind it. */
  lemma NotAddedYet(r: Router, log: seq<Cell>, lo: nat, hi: nat, dest: seq<Msg>, i: nat)
    requires hi <= |log| && hi <= i && !Has(r, dest, i)
    ensures !Has(r, dest + Missing(r, log, lo, hi, Keys(dest)), i)
  {
    var more := Missing(r, log, lo, hi, Keys(dest));
    if r.exactlyOnce {
      forall k | 0 <= k < |dest + more| && RK.MetaKey((dest + more)[k].meta).Some?
        ensures RK.MetaKey((dest + more)[k].meta).value != RK.Key(OriginOf(r, i))
      {
        if k < |dest| {
          assert RK.MetaKey(dest[k].meta).value in Keys(dest);
        } else {
          MissingKeys(r, log, lo, hi, Keys(dest), more[k - |dest|]);
          var p: nat :| lo <= p < hi && RK.MetaKey(more[k - |dest|].meta) == Some(RK.Key(OriginOf(r, p)));
          if RK.Key(OriginOf(r, p)) == RK.Key(OriginOf(r, i)) { RK.KeyIsInjective(OriginOf(r, p), OriginOf(r, i)); }
        }
      }
    }
  }

  /** A pass that was deferred leaves its router stuck. */
  lemma DeferredIsStuck(r: Router, log: seq<Cell>, lo: nat, hi: nat, dest: seq<Cell>, caps: E.Caps)
    requires hi <= |log| && Blocked(r, log, hi, Held(dest), Missing(r, log, lo, hi, Keys(Held(dest))), caps)
    ensures var more := Missing(r, log, lo, hi, Keys(Held(dest)));
            Blocked(r, log, hi, Held(dest + Cells(more)), [], caps)
  {
    var more := Missing(r, log, lo, hi, Keys(Held(dest)));
    HeldGrows(dest, more);
    BytesConcat(Held(dest), more);
    NotAddedYet(r, log, lo, hi, Held(dest), hi);
  }

  /** A pass over a wanted cell that is not there yet starts with its copy. */
  lemma FirstCopyFits(r: Router, log: seq<Cell>, lo: nat, hi: nat, dest: seq<Msg>, caps: E.Caps)
    requires lo < hi <= |log| && Wanted(r, log[lo]) && !Has(r, dest, lo)
    requires AllFit(r, dest, Missing(r, log, lo, hi, Keys(dest)), caps)
    ensures Fits(r, dest, [], Copy(r, log[lo].msg, lo), caps)
  {
    var more := Missing(r, log, lo, hi, Keys(dest));
    MissingPrefix(r, log, lo, lo + 1, hi, Keys(dest));
    assert Missing(r, log, lo, lo + 1, Keys(dest)) == [Copy(r, log[lo].msg, lo)];
    assert more[..0] == [] && more[0] == Copy(r, log[lo].msg, lo);
    assert Fits(r, dest, more[..0], more[0], caps);
  }

  lemma {:induction false} MissingPrefix(r: Router, log: seq<Cell>, lo: nat, mid: nat, hi: nat, keys: set<string>)
    requires lo <= mid <= hi <= |log|
    ensures Missing(r, log, lo, mid, keys) <= Missing(r, log, lo, hi, keys)
    decreases hi
  {
    if mid < hi { MissingPrefix(r, log, lo, mid, hi - 1, keys); }
  }

  /** An at-least-once router stays stuck while its destination only grows. */
  lemma StuckStays(topics: seq<seq<Cell>>, caps: seq<E.Caps>, e: Edge, cursor: nat, dst: nat, more: seq<Msg>)
    requires e.src < |topics| && e.dst < |topics| == |caps| && dst < |topics| && !e.r.exactlyOnce
             && StuckAt(topics, caps, e, cursor)
    ensures StuckAt(topics[dst := topics[dst] + Cells(more)], caps, e, cursor)
  {
    HeldGrows(topics[dst], more);
    BytesConcat(Held(topics[dst]), more);
  }

  /** What a walk from `lo` over `n` cells promises. */
  ghost predicate Walked(r: Router, source: seq<Cell>, lo: nat, dest: seq<Msg>, caps: E.Caps, n: nat,
      toAppend: seq<Msg>, deferred: bool) {
    && lo + n <= |source| && toAppend == Missing(r, source, lo, lo + n, Keys(dest)) && AllFit(r, dest, toAppend, caps)
    && (deferred ==> Blocked(r, source, lo + n, dest, toAppend, caps))
    && (!deferred ==> n == BATCH || lo + n == |source|)
  }

  /** A walk ends at the batch limit or where the router rests. */
  lemma WalkEndsAtRest(r: Router, source: seq<Cell>, lo: nat, dest: seq<Cell>, caps: E.Caps, n: nat,
      toAppend: seq<Msg>, deferred: bool)
    requires Walked(r, source, lo, Held(dest), caps, n, toAppend, deferred)
    ensures n == BATCH || Resting(r, source, lo + n, dest + Cells(toAppend), caps)
  {
    if deferred { DeferredIsStuck(r, source, lo, lo + n, dest, caps); }
  }

  /** A router that rests consumes nothing. */
  lemma RestingConsumesNothing(r: Router, source: seq<Cell>, lo: nat, dest: seq<Cell>, caps: E.Caps, n: nat,
      toAppend: seq<Msg>, deferred: bool)
    requires Walked(r, source, lo, Held(dest), caps, n, toAppend, deferred)
    ensures Resting(r, source, lo, dest, caps) ==> n == 0
  {
    if n > 0 && Wanted(r, source[lo]) && !Has(r, Held(dest), lo) {
      FirstCopyFits(r, source, lo, lo + n, Held(dest), caps);
    }
  }

  /** The net once router `i` has walked. */
  function Stepped(net: Net, i: nat, n: nat, toAppend: seq<Msg>): Net
    requires i < |net.edges| == |net.cursors| && net.edges[i].dst < |net.topics|
  {
    var dst := net.edges[i].dst;
    net.(topics := net.topics[dst := net.topics[dst] + Cells(toAppend)],
         cursors := net.cursors[i := net.cursors[i] + n])
  }

  /** Such a walk of router `i` is a pass. */
  lemma WalkIsPassOf(net: Net, caps: seq<E.Caps>, i: nat, n: nat, toAppend: seq<Msg>, deferred: bool)
    requires WellFormed(net) && |caps| == |net.topics| && i < |net.edges|
    requires var e := net.edges[i];
             Walked(e.r, net.topics[e.src], net.cursors[i], Held(net.topics[e.dst]), caps[e.dst], n, toAppend, deferred)
    ensures Stepped(net, i, n, toAppend) == PassOf(net, i, n, Keys(Held(net.topics[net.edges[i].dst])))
    ensures WellFormed(Stepped(net, i, n, toAppend))
  {
    PassLowersPotential(net, i, n, Keys(Held(net.topics[net.edges[i].dst])));
  }

  lemma WalkIsPass(net: Net, caps: seq<E.Caps>, i: nat, n: nat, toAppend: seq<Msg>, deferred: bool)
    requires WellFormed(net) && |caps| == |net.topics| && i < |net.edges| && net.edges[i].src != net.edges[i].dst
    requires var e := net.edges[i];
             Walked(e.r, net.topics[e.src], net.cursors[i], Held(net.topics[e.dst]), caps[e.dst], n, toAppend, deferred)
    ensures var net1 := Stepped(net, i, n, toAppend);
            && net1 == PassOf(net, i, n, Keys(Held(net.topics[net.edges[i].dst])))
            && WellFormed(net1) && (n == BATCH || Rests(net1, caps, i)) && (Rests(net, caps, i) ==> n == 0)
  {
    var e := net.edges[i];
    WalkIsPassOf(net, caps, i, n, toAppend, deferred);
    WalkEndsAtRest(e.r, net.topics[e.src], net.cursors[i], net.topics[e.dst], caps[e.dst], n, toAppend, deferred);
    RestingConsumesNothing(e.r, net.topics[e.src], net.cursors[i], net.topics[e.dst], caps[e.dst], n, toAppend,
        deferred);
  }

  // ---- hops rise with every recovery pass -----------------------------------

  /** Records pending for routers before `i` have more than `level` hops, for the others
      at least `level`; `stuck` routers do not count. */
  ghost predicate Level(net: Net, level: nat, i: nat, stuck: set<nat>)
    requires WellFormed(net)
  {
    forall j, p :: 0 <= j < |net.edges| && j !in stuck && net.cursors[j] <= p < |net.topics[net.edges[j].src]|
                   && net.topics[net.edges[j].src][p].Alive?
                   ==> net.topics[net.edges[j].src][p].msg.hops >= if j < i then level + 1 else level
  }

  lemma {:induction false} CopiesHopOn(r: Router, log: seq<Cell>, lo: nat, hi: nat, keys: set<string>, level: nat)
    requires lo <= hi <= |log| && forall p :: lo <= p < hi && log[p].Alive? ==> log[p].msg.hops >= level
    ensures forall k :: 0 <= k < |Missing(r, log, lo, hi, keys)| ==> Missing(r, log, lo, hi, keys)[k].hops >= level + 1
    ensures level >= MAX_HOPS ==> Missing(r, log, lo, hi, keys) == []
    decreases hi
  {
    if lo < hi { CopiesHopOn(r, log, lo, hi - 1, keys, level); }
  }

  lemma PassKeepsLevel(net: Net, i: nat, k: nat, keys: set<string>, level: nat, stuck: set<nat>)
    requires WellFormed(net) && i < |net.edges| && net.cursors[i] + k <= |net.topics[net.edges[i].src]|
    requires Level(net, level, i, stuck) && (i in stuck ==> k == 0)
    ensures WellFormed(PassOf(net, i, k, keys)) && Level(PassOf(net, i, k, keys), level, i, stuck)
    ensures level >= MAX_HOPS ==> PassOf(net, i, k, keys).topics == net.topics
  {
    PassLowersPotential(net, i, k, keys);
    CopiesHopOn(net.edges[i].r, net.topics[net.edges[i].src], net.cursors[i], net.cursors[i] + k, keys, level);
    var more := Cells(Delivered(net, i, k, keys));
    if level >= MAX_HOPS || k == 0 { assert net.topics[net.edges[i].dst] + more == net.topics[net.edges[i].dst]; }
  }

  lemma PassGrows(net: Net, i: nat, k: nat, keys: set<string>)
    requires WellFormed(net) && i < |net.edges| && net.cursors[i] + k <= |net.topics[net.edges[i].src]|
    ensures var net1 := PassOf(net, i, k, keys);
            WellFormed(net1) && Grown(net.topics, net1.topics) && (k == 0 ==> net1 == net)
  {
    PassLowersPotential(net, i, k, keys);
    var dst := net.topics[net.edges[i].dst];
    if k == 0 { assert dst + Cells(Delivered(net, i, k, keys)) == dst; }
  }

  // ---- the recovery loop ----------------------------------------------------

  /** The routers in `stuck` are at-least-once and stuck for good. */
  ghost predicate Settled(net: Net, caps: seq<E.Caps>, stuck: set<nat>)
    requires WellFormed(net) && |caps| == |net.topics|
  {
    forall j :: j in stuck ==>
        j < |net.edges| && !net.edges[j].r.exactlyOnce && StuckAt(net.topics, caps, net.edges[j], net.cursors[j])
  }

  lemma PassKeepsSettled(net: Net, caps: seq<E.Caps>, i: nat, k: nat, keys: set<string>, stuck: set<nat>)
    requires WellFormed(net) && |caps| == |net.topics| && i < |net.edges|
             && net.cursors[i] + k <= |net.topics[net.edges[i].src]|
    requires Settled(net, caps, stuck) && (i in stuck ==> k == 0)
    ensures WellFormed(PassOf(net, i, k, keys)) && Settled(PassOf(net, i, k, keys), caps, stuck)
  {
    var net1 := PassOf(net, i, k, keys);
    PassLowersPotential(net, i, k, keys);
    forall j | j in stuck ensures StuckAt(net1.topics, caps, net.edges[j], net1.cursors[j]) {
      StuckStays(net.topics, caps, net.edges[j], net.cursors[j], net.edges[i].dst, Delivered(net, i, k, keys));
    }
  }

  /** Driving router `i` keeps the level and what is settled; at the hop cap it touches nothing
      but its cursor. */
  ghost predicate LevelKept(net: Net, net1: Net, caps: seq<E.Caps>, i: nat, level: nat, stuck: set<nat>)
    requires WellFormed(net) && WellFormed(net1) && net1.edges == net.edges && |caps| == |net.topics| == |net1.topics|
  {
    Settled(net, caps, stuck) ==>
      && Settled(net1, caps, stuck)
      && (Level(net, level, i, stuck) ==>
            && Level(net1, level, i, stuck)
            && (level >= MAX_HOPS ==>
                  net1.topics == net.topics && forall j :: 0 <= j < |net.edges| && j != i ==>
                      net1.cursors[j] == net.cursors[j]))
  }

  lemma PassKeepsLevels(start: Net, net: Net, caps: seq<E.Caps>, i: nat, k: nat, keys: set<string>, level: nat,
      stuck: set<nat>)
    requires WellFormed(start) && WellFormed(net) && net.edges == start.edges
             && |caps| == |start.topics| == |net.topics|
    requires LevelKept(start, net, caps, i, level, stuck)
    requires i < |net.edges| && net.cursors[i] + k <= |net.topics[net.edges[i].src]|
    requires StuckAt(net.topics, caps, net.edges[i], net.cursors[i]) ==> k == 0
    ensures WellFormed(PassOf(net, i, k, keys)) && LevelKept(start, PassOf(net, i, k, keys), caps, i, level, stuck)
  {
    PassLowersPotential(net, i, k, keys);
    if Settled(start, caps, stuck) {
      PassKeepsSettled(net, caps, i, k, keys, stuck);
      if Level(net, level, i, stuck) { PassKeepsLevel(net, i, k, keys, level, stuck); }
    }
  }

  /** What driving router `i` does, consuming `progressed` cells. */
  ghost predicate Drove(net: Net, net1: Net, caps: seq<E.Caps>, i: nat, level: nat, stuck: set<nat>, progressed: nat) {
    && WellFormed(net) && WellFormed(net1) && net1.edges == net.edges && i < |net.edges| && |caps| == |net.topics|
    && Potential(net1) + progressed <= Potential(net) && Grown(net.topics, net1.topics)
    && (Oversized(net1.topics) || Rests(net1, caps, i))
    && (Rests(net, caps, i) ==> progressed == 0) && (progressed == 0 ==> net1 == net)
    && LevelKept(net, net1, caps, i, level, stuck)
  }

  /** A recovery pass that has driven the routers before `i`; `stuck` are those found stuck in
      this pass or before; `once`: an exactly-once router got stuck in it. */
  ghost predicate Driving(start: Net, net: Net, caps: seq<E.Caps>, i: nat, level: nat, progressed: nat,
                          stuck0: set<nat>, stuck: set<nat>, once: bool) {
    && WellFormed(start) && WellFormed(net) && net.edges == start.edges && i <= |net.edges|
    && |caps| == |start.topics| && Potential(net) + progressed <= Potential(start) && Grown(start.topics, net.topics)
    && (progressed == 0 ==> net == start && (Oversized(net.topics) || RestUpTo(net, caps, i)))
    && (AllRest(start, caps) ==> progressed == 0)
    && (Settled(start, caps, stuck0) && !once && !Oversized(net.topics) ==>
          && Settled(net, caps, stuck)
          && (Level(start, level, 0, stuck0) ==>
               Level(net, level, i, stuck) && (level >= MAX_HOPS ==> RestUpTo(net, caps, i))))
  }

  lemma DriveOn(start: Net, net: Net, net1: Net, caps: seq<E.Caps>, i: nat, level: nat, progressed: nat, n: nat,
                stuck0: set<nat>, stuck: set<nat>, once: bool)
    requires Driving(start, net, caps, i, level, progressed, stuck0, stuck, once)
             && Drove(net, net1, caps, i, level, stuck, n)
    ensures var e := net.edges[i];
            var isStuck := StuckAt(net1.topics, caps, e, net1.cursors[i]);
            Driving(start, net1, caps, i + 1, level, progressed + n, stuck0, if isStuck then stuck + {i} else stuck,
                    once || (isStuck && e.r.exactlyOnce))
  {
    if Oversized(net.topics) { OversizedStays(net.topics, net1.topics); }
    RestStays(net, net1, caps, i);
  }

  /** Routers stay at rest while nothing but another cursor moves. */
  lemma RestStays(net: Net, net1: Net, caps: seq<E.Caps>, i: nat)
    requires WellFormed(net) && WellFormed(net1) && net1.edges == net.edges && i < |net.edges|
             && |caps| == |net.topics| == |net1.topics|
    ensures RestUpTo(net, caps, i) && net1.topics == net.topics
            && (forall j :: 0 <= j < |net.edges| && j != i ==> net1.cursors[j] == net.cursors[j])
            ==> RestUpTo(net1, caps, i)
  {
    if net1.topics == net.topics && RestUpTo(net, caps, i) {
      forall j | 0 <= j < i && net1.cursors[j] == net.cursors[j]
          ensures Rests(net1, caps, j) { assert Rests(net, caps, j); }
    }
  }

  class Engine {
    const edges: seq<Edge>
    const caps: seq<E.Caps>
    var topics: seq<seq<Cell>>
    var cursors: seq<nat>

    ghost function View(): Net
      reads this
    {
      Net(topics, edges, cursors)
    }

    /** Routers are, as validated when created, not from a topic to itself. */
    ghost predicate Valid()
      reads this
    {
      WellFormed(View()) && |caps| == |topics| && forall i :: 0 <= i < |edges| ==> edges[i].src != edges[i].dst
    }

    constructor (net: Net, limits: seq<E.Caps>)
      requires WellFormed(net) && |limits| == |net.topics| && forall i :: 0 <= i < |net.edges| ==>
               net.edges[i].src != net.edges[i].dst
      ensures Valid() && View() == net && caps == limits
    {
      topics, edges, cursors, caps := net.topics, net.edges, net.cursors, limits;
    }

    /** One pass of router `i`; it stops short of the source head only at the batch limit or
        where it is stuck. */
    method AdvanceRouter(i: nat) returns (n: nat, ghost keys: set<string>)
      requires Valid() && i < |edges|
      modifies this
      ensures Valid() && old(cursors)[i] + n <= |old(topics)[edges[i].src]| && View() == PassOf(old(View()), i, n, keys)
      ensures n == BATCH || Rests(View(), caps, i)
      ensures Rests(old(View()), caps, i) ==> n == 0
    {
      var e := edges[i];
      var toAppend, forwarded, deferred;
      var dest := Held(topics[e.dst]);
      n, toAppend, forwarded, deferred := Walk(e.r, topics[e.src], cursors[i], dest, caps[e.dst]);
      keys := Keys(dest);
      ghost var net := View();
      WalkIsPass(net, caps, i, n, toAppend, deferred);
      topics := topics[e.dst := topics[e.dst] + Cells(toAppend)];
      cursors := cursors[i := cursors[i] + n];
      assert View() == Stepped(net, i, n, toAppend);
    }

    /** Drive router `i` until it rests; the guard fires only on an oversized source. */
    method Drive(i: nat, ghost level: nat, ghost stuck: set<nat>) returns (progressed: nat)
      requires Valid() && i < |edges|
      modifies this
      ensures Valid() && Drove(old(View()), View(), caps, i, level, stuck, progressed)
    {
      progressed := 0;
      var guard := 0;
      ghost var start := View();
      while true
        invariant Valid() && Potential(View()) + progressed <= Potential(start) && Grown(start.topics, topics)
        invariant guard <= GUARD && cursors[i] == start.cursors[i] + progressed
                  && topics[edges[i].src] == start.topics[edges[i].src]
        invariant progressed == guard * BATCH || (progressed > 0 && Rests(View(), caps, i))
        invariant progressed == 0 ==> View() == start
        invariant Rests(start, caps, i) ==> progressed == 0
        invariant LevelKept(start, View(), caps, i, level, stuck)
        decreases GUARD - guard
      {
        ghost var net := View();
        ghost var keys;
        var n;
        n, keys := AdvanceRouter(i);
        PassGrows(net, i, n, keys);
        PassLowersPotential(net, i, n, keys);
        PassKeepsLevels(start, net, caps, i, n, keys, level, stuck);
        progressed := progressed + n;
        if n == 0 {
          break;
        }
        guard := guard + 1;
        if guard > GUARD {
          assert Rests(View(), caps, i) || |topics[edges[i].src]| > GUARD * BATCH;
          break;
        }
      }
    }

    /** One recovery pass: drive every router once. `once`: an exactly-once router got stuck. */
    method PassOverAll(ghost level: nat, ghost stuck0: set<nat>)
        returns (progressed: nat, once: bool, ghost stuck: set<nat>)
      requires Valid()
      modifies this
      ensures Valid() && Driving(old(View()), View(), caps, |edges|, level, progressed, stuck0, stuck, once)
      ensures once ==> exists i :: 0 <= i < |edges| && edges[i].r.exactlyOnce
    {
      progressed, once, stuck := 0, false, stuck0;
      ghost var start := View();
      for i := 0 to |edges|
        invariant Valid() && Driving(start, View(), caps, i, level, progressed, stuck0, stuck, once)
        invariant once ==> exists i :: 0 <= i < |edges| && edges[i].r.exactlyOnce
      {
        ghost var net := View();
        var n := Drive(i, level, stuck);
        DriveOn(start, net, View(), caps, i, level, progressed, n, stuck0, stuck, once);
        var isStuck := StuckAt(topics, caps, edges[i], cursors[i]);
        stuck := if isStuck then stuck + {i} else stuck;
        once := once || (isStuck && edges[i].r.exactlyOnce);
        progressed := progressed + n;
      }
    }

    /** Re-forward to a fixed point: the loop ends with every router caught up or stuck, unless
        some topic ends with more than a billion records or the pass cap is reached. Unless an
        exactly-once router got stuck, the hop cap brings the topics to rest within nine
        progressing passes, so the pass cap is not reached. */
    method ReforwardRouters() returns (passes: nat, once: bool)
      requires Valid()
      modifies this
      ensures Valid() && Potential(View()) <= Potential(old(View()))
      ensures Oversized(topics) || passes > MAX_PASSES || AllRest(View(), caps)
      ensures once || Oversized(topics) || passes <= MAX_HOPS + 1
      ensures once ==> exists i :: 0 <= i < |edges| && edges[i].r.exactlyOnce
    {
      passes, once := 0, false;
      ghost var stuck: set<nat> := {};
      while true
        invariant Valid() && Potential(View()) <= Potential(old(View())) && passes <= MAX_PASSES
        invariant once ==> exists i :: 0 <= i < |edges| && edges[i].r.exactlyOnce
        invariant once || Oversized(topics) ||
                  (Settled(View(), caps, stuck) && Level(View(), passes, 0, stuck) && passes <= MAX_HOPS + 1)
        invariant once || Oversized(topics) || (passes == MAX_HOPS + 1 ==> AllRest(View(), caps))
        decreases MAX_PASSES - passes
      {
        ghost var before := topics;
        var progressed, sticky;
        progressed, sticky, stuck := PassOverAll(passes, stuck);
        if Oversized(before) { OversizedStays(before, topics); }
        once := once || sticky;
        if progressed == 0 {
          break;
        }
        passes := passes + 1;
        if passes > MAX_PASSES {
          break;
        }
      }
    }
  }
}
