/** Whole runs of one router: passes that stop anywhere or fail, and crashes that restore an
    earlier snapshot. A snapshot keeps no hop counts (`SnapshotRecord` in
    `src/storage/snapshot.rs`), so restored records have hopped zero times (`restore_topic` in
    `src/engine/snapshot.rs`). */
module ForwardRuns {
  import opened Common
  import E = Eviction
  import opened Forward

  // ---- records but for their hops -------------------------------------------

  function Plain(msgs: seq<Msg>): (r: seq<Msg>)
    ensures |r| == |msgs| && forall i :: 0 <= i < |msgs| ==> r[i] == msgs[i].(hops := 0)
  {
    seq(|msgs|, i requires 0 <= i < |msgs| => msgs[i].(hops := 0))
  }

  /** The cell as a snapshot gives it back. */
  function Restored(cell: Cell): Cell { if cell.Alive? then Alive(cell.msg.(hops := 0)) else Gone }

  function Reset(cells: seq<Cell>): (r: seq<Cell>)
    ensures |r| == |cells| && forall i :: 0 <= i < |cells| ==> r[i] == Restored(cells[i])
  {
    seq(|cells|, i requires 0 <= i < |cells| => Restored(cells[i]))
  }

  /** The same record, its hops the same or lower. */
  predicate Lowered(a: Cell, b: Cell) { Restored(a) == Restored(b) && (a.Alive? ==> b.msg.hops <= a.msg.hops) }

  /** `b` holds the cells of `a` up to `n`, hops the same or lower. */
  ghost predicate AllLowered(a: seq<Cell>, b: seq<Cell>, n: nat) {
    n <= |a| && n <= |b| && forall i :: 0 <= i < n ==> Lowered(a[i], b[i])
  }

  /** The record is alive and the filter lets it through, whatever its hops. */
  predicate LetThrough(r: Router, cell: Cell) {
    cell.Alive? && (r.filter.Some? ==> T.Matches(r.filter.value, T.Rec(cell.msg.tag, "")))
  }

  /** A record the router lets through had reached the hop cap as `a`, and as `b` it has not. */
  predicate Revived(r: Router, a: Cell, b: Cell) { !Wanted(r, a) && Wanted(r, b) }

  ghost predicate NoneRevived(r: Router, a: seq<Cell>, b: seq<Cell>, lo: nat, hi: nat)
    requires hi <= |a| && hi <= |b|
  {
    forall i :: lo <= i < hi ==> !Revived(r, a[i], b[i])
  }

  lemma CopyIgnoresHops(r: Router, a: Cell, b: Cell, i: nat)
    requires Lowered(a, b)
    ensures LetThrough(r, a) == LetThrough(r, b) && (Wanted(r, a) ==> Wanted(r, b))
    ensures a.Alive? ==> b.Alive? && Copy(r, a.msg, i).(hops := 0) == Copy(r, b.msg, i).(hops := 0)
  {
  }

  /** Lower hops forward no less; and the same records in the same places, hops aside, exactly
      when no record came back below the cap. */
  lemma {:induction false} ImagesAgreeExactlyWhen(r: Router, a: seq<Cell>, b: seq<Cell>, lo: nat, hi: nat)
    requires AllLowered(a, b, hi)
    ensures |Image(r, a, lo, hi)| <= |Image(r, b, lo, hi)|
    ensures |Image(r, a, lo, hi)| == |Image(r, b, lo, hi)| <==> NoneRevived(r, a, b, lo, hi)
    ensures NoneRevived(r, a, b, lo, hi) ==> Plain(Image(r, a, lo, hi)) == Plain(Image(r, b, lo, hi))
    decreases hi
  {
    if lo < hi {
      ImagesAgreeExactlyWhen(r, a, b, lo, hi - 1);
      CopyIgnoresHops(r, a[hi - 1], b[hi - 1], hi - 1);
      if NoneRevived(r, a, b, lo, hi - 1) && !Revived(r, a[hi - 1], b[hi - 1]) {
        assert NoneRevived(r, a, b, lo, hi);
      }
    }
  }

  // ---- runs -----------------------------------------------------------------

  /** The destination with the cursor and the forwarded total. */
  datatype Saved = Saved(cursor: nat, total: nat, dest: seq<Msg>)

  /** What a snapshot captures: all of that and the source; `passed` is history. */
  datatype Shot = Shot(at: Saved, source: seq<Cell>, passed: seq<Cell>)

  /** `start` is the cursor the router began at and `origin` the destination then; `passed` are
      the cells behind the cursor, as they were when it passed them. */
  datatype World = World(source: seq<Cell>, start: nat, origin: seq<Msg>, now: Saved, passed: seq<Cell>,
                         shots: seq<Shot>)

  datatype Step =
    | Write(cells: seq<Cell>)             // the source grows
    | Pass(k: nat, ok: bool)              // a pass that consumes k cells; `ok`: its append succeeds
    | Snapshot
    | Restore(m: nat, tail: seq<Cell>)    // a crash: the m-th snapshot comes back, and what the
                                          // source's log holds behind it

  function PassFrom(r: Router, source: seq<Cell>, x: Saved, k: nat, ok: bool): (y: Saved)
    ensures x.cursor <= y.cursor && (x.cursor <= |source| ==> y.cursor <= |source|)
  {
    if k > BATCH || x.cursor + k > |source| then x else
    var app := Missing(r, source, x.cursor, x.cursor + k, Keys(x.dest));
    if app != [] && !ok then x else
    Saved(x.cursor + k, x.total + |Image(r, source, x.cursor, x.cursor + k)|, x.dest + app)
  }

  /** The cells a pass moved over. */
  function Passed(source: seq<Cell>, lo: nat, hi: nat): seq<Cell> {
    if lo <= hi <= |source| then source[lo..hi] else []
  }

  function Do(r: Router, w: World, step: Step): World {
    match step
    case Write(cells) => w.(source := w.source + cells)
    case Pass(k, ok) =>
      var x := PassFrom(r, w.source, w.now, k, ok);
      w.(now := x, passed := w.passed + Passed(w.source, w.now.cursor, x.cursor))
    case Snapshot => w.(shots := w.shots + [Shot(w.now, w.source, w.passed)])
    case Restore(m, tail) =>
      if m >= |w.shots| then w else
      var z := w.shots[m];
      w.(source := Reset(z.source) + tail, now := z.at.(dest := Plain(z.at.dest)), passed := z.passed)
  }

  function Run(r: Router, w: World, steps: seq<Step>): World {
    if steps == [] then w else Do(r, Run(r, w, steps[..|steps| - 1]), steps[|steps| - 1])
  }

  function Start(source: seq<Cell>, start: nat, origin: seq<Msg>): World
    requires start <= |source|
  {
    World(source, start, origin, Saved(start, 0, origin), source[..start], [])
  }

  /** The engine's form of a pass: cursor, total and destination updated in place. */
  class Forwarder {
    const r: Router
    var cursor: nat
    var total: nat
    var dest: seq<Msg>

    ghost function View(): Saved
      reads this
    {
      Saved(cursor, total, dest)
    }

    constructor (r: Router, cursor: nat, dest: seq<Msg>)
      ensures this.r == r && View() == Saved(cursor, 0, dest)
    {
      this.r, this.cursor, this.total, this.dest := r, cursor, 0, dest;
    }

    /** One pass; `appendOk` is whether the derived append succeeds. It is behind afterwards
        only if it stopped at the batch limit, at a blocked record or at a failed append. */
    method Advance(source: seq<Cell>, caps: E.Caps, appendOk: bool) returns (consumed: nat, remark: bool)
      requires cursor <= |source|
      modifies this
      ensures cursor <= |source| && consumed <= BATCH && View() == PassFrom(r, source, old(View()), consumed, appendOk)
      ensures cursor < |source| ==> remark
      ensures WithinCaps(caps, old(dest)) ==> WithinCaps(caps, dest)
    {
      remark := false;
      if cursor >= |source| {
        PassNothing(r, source, View(), appendOk);
        return 0, false;
      }
      var n, toAppend, forwarded, deferred := Walk(r, source, cursor, dest, caps);
      if toAppend != [] && !appendOk {
        PassNothing(r, source, View(), appendOk);
        return 0, true;
      }
      if WithinCaps(caps, dest) { StaysWithinCaps(r, dest, toAppend, caps); }
      remark := deferred || cursor + BATCH < |source|;
      dest, total, cursor, consumed := dest + toAppend, total + forwarded, cursor + n, n;
    }
  }

  lemma PassNothing(r: Router, source: seq<Cell>, x: Saved, ok: bool)
    ensures PassFrom(r, source, x, 0, ok) == x
  {
    if x.cursor <= |source| {
      assert Missing(r, source, x.cursor, x.cursor, Keys(x.dest)) == [];
      assert x.dest + [] == x.dest;
    }
  }

  // ---- at-least-once: the destination is a function of what was passed --------

  /** The destination is the image of the cells as they were passed, hops aside, and the source
      still holds those cells, their hops the same or lower. */
  ghost predicate Derived(r: Router, source: seq<Cell>, start: nat, origin: seq<Msg>, x: Saved, passed: seq<Cell>) {
    && start <= x.cursor == |passed| && AllLowered(passed, source, |passed|)
    && Plain(x.dest) == Plain(origin) + Plain(Image(r, passed, start, x.cursor))
    && x.total == |Image(r, passed, start, x.cursor)|
  }

  ghost predicate AllDerived(r: Router, w: World) {
    && Derived(r, w.source, w.start, w.origin, w.now, w.passed)
    && forall m :: 0 <= m < |w.shots| ==>
         Derived(r, w.shots[m].source, w.start, w.origin, w.shots[m].at, w.shots[m].passed)
  }

  lemma PlainConcat(a: seq<Msg>, b: seq<Msg>)
    ensures Plain(a + b) == Plain(a) + Plain(b)
  {
  }

  /** The image of cells `lo` up to `hi` does not depend on the others. */
  lemma {:induction false} ImageOfSame(r: Router, a: seq<Cell>, b: seq<Cell>, lo: nat, hi: nat)
    requires hi <= |a| && hi <= |b| && forall i :: lo <= i < hi ==> a[i] == b[i]
    ensures Image(r, a, lo, hi) == Image(r, b, lo, hi)
    decreases hi
  {
    if lo < hi { ImageOfSame(r, a, b, lo, hi - 1); }
  }

  lemma PassKeepsDerived(r: Router, source: seq<Cell>, start: nat, origin: seq<Msg>, x: Saved, passed: seq<Cell>,
                         k: nat, ok: bool)
    requires !r.exactlyOnce && Derived(r, source, start, origin, x, passed)
    ensures var y := PassFrom(r, source, x, k, ok);
            Derived(r, source, start, origin, y, passed + Passed(source, x.cursor, y.cursor))
  {
    var y := PassFrom(r, source, x, k, ok);
    var c, d, passed1 := x.cursor, y.cursor, passed + Passed(source, x.cursor, y.cursor);
    if c < d {
      AllMissing(r, source, c, d, Keys(x.dest));
      ImageSplits(r, passed1, start, c, d);
      ImageOfSame(r, passed1, passed, start, c);
      ImageOfSame(r, passed1, source, c, d);
      PlainConcat(x.dest, Image(r, source, c, d));
      PlainConcat(Image(r, passed, start, c), Image(r, source, c, d));
      ConcatAssoc(Plain(origin), Plain(Image(r, passed, start, c)), Plain(Image(r, source, c, d)));
    } else {
      PassNothingMoves(r, source, x, k, ok);
      assert passed1 == passed;
    }
  }

  /** A pass counts the eligible cells it moves over, appended or there already. */
  lemma PassCounts(r: Router, source: seq<Cell>, x: Saved, k: nat, ok: bool)
    requires x.cursor <= |source|
    ensures var y := PassFrom(r, source, x, k, ok); y.total == x.total + |EligibleIn(r, source, x.cursor, y.cursor)|
  {
    var y := PassFrom(r, source, x, k, ok);
    ImageCounts(r, source, x.cursor, y.cursor);
    if y.cursor == x.cursor { PassNothingMoves(r, source, x, k, ok); }
  }

  /** A pass that is asked to move and does not had something to append, and its append failed. */
  lemma StaysOnlyWhenFailed(r: Router, source: seq<Cell>, x: Saved, k: nat, ok: bool)
    requires 0 < k <= BATCH && x.cursor + k <= |source| && PassFrom(r, source, x, k, ok).cursor == x.cursor
    ensures !ok && exists i :: x.cursor <= i < x.cursor + k && Eligible(r, source[i]) && !Has(r, x.dest, i)
  {
    var i := FirstDue(r, source, x.cursor, x.cursor + k, x.dest);
  }

  lemma FirstDue(r: Router, source: seq<Cell>, lo: nat, hi: nat, dest: seq<Msg>) returns (i: nat)
    requires hi <= |source| && Missing(r, source, lo, hi, Keys(dest)) != []
    ensures lo <= i < hi && Eligible(r, source[i]) && !Has(r, dest, i)
  {
    var idx := Due(r, source, lo, hi, Keys(dest));
    PassAppendsExactly(r, source, lo, hi, dest, idx);
    i := idx[0];
    assert i in idx;
  }

  /** A pass that does not move the cursor changes nothing. */
  lemma PassNothingMoves(r: Router, source: seq<Cell>, x: Saved, k: nat, ok: bool)
    requires PassFrom(r, source, x, k, ok).cursor == x.cursor
    ensures PassFrom(r, source, x, k, ok) == x
  {
    if k == 0 { PassNothing(r, source, x, ok); }
  }

  lemma RestoreKeepsDerived(r: Router, z: Shot, start: nat, origin: seq<Msg>, tail: seq<Cell>)
    requires Derived(r, z.source, start, origin, z.at, z.passed)
    ensures Derived(r, Reset(z.source) + tail, start, origin, z.at.(dest := Plain(z.at.dest)), z.passed)
  {
    assert Plain(Plain(z.at.dest)) == Plain(z.at.dest);
  }

  lemma StepKeepsDerived(r: Router, w: World, step: Step)
    requires !r.exactlyOnce && AllDerived(r, w)
    ensures AllDerived(r, Do(r, w, step))
  {
    match step
    case Pass(k, ok) => PassKeepsDerived(r, w.source, w.start, w.origin, w.now, w.passed, k, ok);
    case Restore(m, tail) =>
      if m < |w.shots| { RestoreKeepsDerived(r, w.shots[m], w.start, w.origin, tail); }
    case _ =>
  }

  /** In every run, whatever passes stop short or fail and whatever snapshots come back, the
      destination is the image of the cells behind the cursor as they were passed, in order and
      hops aside, and its head is its base plus the forwarded total. It is the image of the source
      as it is now exactly when no record behind the cursor was at the hop cap when passed and
      has come back below it. */
  lemma {:induction false} DestinationIsImage(r: Router, source: seq<Cell>, start: nat, origin: seq<Msg>,
      steps: seq<Step>)
    requires !r.exactlyOnce && start <= |source|
    ensures var w := Run(r, Start(source, start, origin), steps);
            && AllDerived(r, w) && w.start == start && w.origin == origin && |w.now.dest| == |origin| + w.now.total
            && (Plain(w.now.dest) == Plain(origin) + Plain(Image(r, w.source, start, w.now.cursor)) <==>
                  NoneRevived(r, w.passed, w.source, start, w.now.cursor))
  {
    if steps == [] {
      StartIsDerived(r, source, start, origin);
    } else {
      var n := |steps| - 1;
      DestinationIsImage(r, source, start, origin, steps[..n]);
      StepKeepsDerived(r, Run(r, Start(source, start, origin), steps[..n]), steps[n]);
    }
    var w := Run(r, Start(source, start, origin), steps);
    DerivedIsImage(r, w.source, start, origin, w.now, w.passed);
  }

  lemma StartIsDerived(r: Router, source: seq<Cell>, start: nat, origin: seq<Msg>)
    requires start <= |source|
    ensures AllDerived(r, Start(source, start, origin))
  {
    assert Image(r, source[..start], start, start) == [] && Plain(origin) + [] == Plain(origin);
  }

  lemma DerivedIsImage(r: Router, source: seq<Cell>, start: nat, origin: seq<Msg>, x: Saved, passed: seq<Cell>)
    requires Derived(r, source, start, origin, x, passed)
    ensures |x.dest| == |origin| + x.total
    ensures Plain(x.dest) == Plain(origin) + Plain(Image(r, source, start, x.cursor)) <==>
            NoneRevived(r, passed, source, start, x.cursor)
  {
    ImagesAgreeExactlyWhen(r, passed, source, start, x.cursor);
    assert |Plain(x.dest)| == |Plain(origin)| + |Image(r, passed, start, x.cursor)|;
  }

  // ---- sources whose records never reach the cap -----------------------------

  /** No record the router lets through has reached the hop cap. */
  ghost predicate BelowCap(r: Router, cells: seq<Cell>) {
    forall i :: 0 <= i < |cells| && LetThrough(r, cells[i]) ==> Wanted(r, cells[i])
  }

  ghost predicate Shallow(r: Router, step: Step) {
    match step
    case Write(cells) => BelowCap(r, cells)
    case Restore(_, tail) => BelowCap(r, tail)
    case _ => true
  }

  ghost predicate AllBelowCap(r: Router, w: World) {
    && BelowCap(r, w.source) && BelowCap(r, w.passed)
    && forall m :: 0 <= m < |w.shots| ==> BelowCap(r, w.shots[m].source) && BelowCap(r, w.shots[m].passed)
  }

  lemma StepStaysShallow(r: Router, w: World, step: Step)
    requires AllBelowCap(r, w) && Shallow(r, step)
    ensures AllBelowCap(r, Do(r, w, step))
  {
  }

  /** If no record of the source ever reaches the cap, as when it takes only direct writes, then in
      every run the destination is the image of the source behind the cursor, hops aside. */
  lemma {:induction false} ShallowSourceIsImage(r: Router, source: seq<Cell>, start: nat, origin: seq<Msg>,
      steps: seq<Step>)
    requires !r.exactlyOnce && start <= |source| && BelowCap(r, source)
    requires forall k :: 0 <= k < |steps| ==> Shallow(r, steps[k])
    ensures var w := Run(r, Start(source, start, origin), steps);
            && AllBelowCap(r, w) && w.now.cursor <= |w.source|
            && Plain(w.now.dest) == Plain(origin) + Plain(Image(r, w.source, start, w.now.cursor))
  {
    if steps != [] {
      var n := |steps| - 1;
      ShallowSourceIsImage(r, source, start, origin, steps[..n]);
      StepStaysShallow(r, Run(r, Start(source, start, origin), steps[..n]), steps[n]);
    }
    DestinationIsImage(r, source, start, origin, steps);
  }

  // ---- re-derivation after a crash -------------------------------------------

  /** No crash among the steps. */
  ghost predicate Straight(steps: seq<Step>) { forall k :: 0 <= k < |steps| ==> !steps[k].Restore? }

  /** What a life without a crash makes of a state. */
  ghost predicate Continued(r: Router, w: World, u: World) {
    && w.now.cursor <= u.now.cursor <= |u.source| && w.source <= u.source && w.shots <= u.shots
    && u.now.dest == w.now.dest + Image(r, u.source, w.now.cursor, u.now.cursor)
  }

  lemma PassContinues(r: Router, w: World, u: World, k: nat, ok: bool)
    requires !r.exactlyOnce && Continued(r, w, u)
    ensures Continued(r, w, Do(r, u, Pass(k, ok)))
  {
    var y := PassFrom(r, u.source, u.now, k, ok);
    var c, d := u.now.cursor, y.cursor;
    if c < d {
      AllMissing(r, u.source, c, d, Keys(u.now.dest));
      ImageSplits(r, u.source, w.now.cursor, c, d);
      ConcatAssoc(w.now.dest, Image(r, u.source, w.now.cursor, c), Image(r, u.source, c, d));
    } else {
      PassNothingMoves(r, u.source, u.now, k, ok);
    }
  }

  lemma {:induction false} StraightRun(r: Router, w: World, steps: seq<Step>)
    requires !r.exactlyOnce && Straight(steps) && w.now.cursor <= |w.source|
    ensures Continued(r, w, Run(r, w, steps))
  {
    if steps == [] {
      assert Image(r, w.source, w.now.cursor, w.now.cursor) == [] && w.now.dest + [] == w.now.dest;
    } else {
      var n := |steps| - 1;
      StraightRun(r, w, steps[..n]);
      var u := Run(r, w, steps[..n]);
      match steps[n]
      case Pass(k, ok) => PassContinues(r, w, u, k, ok);
      case Write(cells) => ImageOfPrefix(r, u.source, cells, w.now.cursor, u.now.cursor);
      case Snapshot =>
    }
  }

  /** No record the router lets through in `source[lo..hi]` has reached the cap. */
  ghost predicate NoneCapped(r: Router, source: seq<Cell>, lo: nat, hi: nat) {
    forall i :: lo <= i < hi && i < |source| && LetThrough(r, source[i]) ==> source[i].msg.hops < MAX_HOPS
  }

  /** The source of a life `a` and of the life `b` after a snapshot of `cells` came back. */
  lemma ResetRevives(r: Router, cells: seq<Cell>, a: seq<Cell>, b: seq<Cell>, lo: nat, hi: nat)
    requires cells <= a && Reset(cells) <= b && hi <= |a| && hi <= |b|
    requires forall i :: |cells| <= i < hi ==> a[i] == b[i]
    ensures AllLowered(a, b, hi) && (NoneRevived(r, a, b, lo, hi) <==> NoneCapped(r, cells, lo, hi))
  {
    forall i | 0 <= i < hi ensures Lowered(a[i], b[i]) {
      assert i < |cells| ==> a[i] == cells[i] && b[i] == Restored(cells[i]);
    }
    if NoneRevived(r, a, b, lo, hi) {
      forall i | lo <= i < hi && i < |cells| && LetThrough(r, cells[i]) ensures cells[i].msg.hops < MAX_HOPS {
        assert a[i] == cells[i] && b[i] == Restored(cells[i]) && !Revived(r, a[i], b[i]);
      }
    }
  }

  /** A snapshot is taken, a life goes on, a crash brings the snapshot back, and a second life
      reaches the same cursor over the same source records. Re-forwarding has then derived the
      same records at the same destination seqs, hops aside, if and only if no captured record
      the router lets through between the two cursors had reached the hop cap. */
  lemma RederivesExactlyWhen(r: Router, w: World, life: seq<Step>, tail: seq<Cell>, again: seq<Step>)
    requires !r.exactlyOnce && w.now.cursor <= |w.source| && Straight(life) && Straight(again)
    requires var u := Run(r, Do(r, w, Snapshot), life);
             var v := Run(r, Do(r, u, Restore(|w.shots|, tail)), again);
             && u.now.cursor == v.now.cursor <= |u.source| && v.now.cursor <= |v.source|
             && forall i :: |w.source| <= i < u.now.cursor ==> u.source[i] == v.source[i]
    ensures var u := Run(r, Do(r, w, Snapshot), life);
            var v := Run(r, Do(r, u, Restore(|w.shots|, tail)), again);
            && (Plain(u.now.dest) == Plain(v.now.dest) <==> NoneCapped(r, w.source, w.now.cursor, u.now.cursor))
            && |u.now.dest| <= |v.now.dest|
  {
    var w1 := Do(r, w, Snapshot);
    var u := Run(r, w1, life);
    StraightRun(r, w1, life);
    assert u.shots[|w.shots|] == w1.shots[|w.shots|];
    var u1 := Do(r, u, Restore(|w.shots|, tail));
    var v := Run(r, u1, again);
    StraightRun(r, u1, again);
    assert Reset(w.source) <= v.source;
    ResetRevives(r, w.source, u.source, v.source, w.now.cursor, u.now.cursor);
    SameDerivation(r, w.now.dest, u.source, v.source, w.now.cursor, u.now.cursor);
  }

  lemma SameDerivation(r: Router, dest: seq<Msg>, a: seq<Cell>, b: seq<Cell>, lo: nat, hi: nat)
    requires AllLowered(a, b, hi)
    ensures var x, y := dest + Image(r, a, lo, hi), Plain(dest) + Image(r, b, lo, hi);
            (Plain(x) == Plain(y) <==> NoneRevived(r, a, b, lo, hi)) && |x| <= |y|
  {
    var x, y := Image(r, a, lo, hi), Image(r, b, lo, hi);
    ImagesAgreeExactlyWhen(r, a, b, lo, hi);
    SamePlain(dest, x, y);
    assert |Plain(dest + x)| == |dest| + |x| && |Plain(Plain(dest) + y)| == |dest| + |y|;
  }

  lemma SamePlain(dest: seq<Msg>, x: seq<Msg>, y: seq<Msg>)
    ensures Plain(x) == Plain(y) ==> Plain(dest + x) == Plain(Plain(dest) + y)
  {
    PlainConcat(dest, x);
    PlainConcat(Plain(dest), y);
    assert Plain(Plain(dest)) == Plain(dest);
  }

  /** A run in which it does not: the record at the cap is passed over, a crash brings it back
      below the cap, and it is forwarded to the seq its successor had. */
  lemma CappedRecordIsForwarded(r: Router, a: Msg, b: Msg)
    requires !r.exactlyOnce && r.filter.None? && a.hops == MAX_HOPS && b.hops == 0
    ensures var w := Start([Alive(a), Alive(b)], 0, []);
            var u := Do(r, Do(r, w, Snapshot), Pass(2, true));
            var v := Do(r, Do(r, u, Restore(0, [])), Pass(2, true));
            && u.now.dest == [Copy(r, b, 1)]
            && v.now.dest == [Copy(r, a.(hops := 0), 0), Copy(r, b, 1)]
  {
    var source := [Alive(a), Alive(b)];
    var a0 := a.(hops := 0);
    TwoCells(r, a, b, []);
    assert Reset(source) + [] == [Alive(a0), Alive(b)] && Plain([]) == [];
    TwoCells(r, a0, b, []);
  }

  /** One pass over two records. */
  lemma TwoCells(r: Router, a: Msg, b: Msg, dest: seq<Msg>)
    requires !r.exactlyOnce && r.filter.None? && b.hops < MAX_HOPS
    ensures PassFrom(r, [Alive(a), Alive(b)], Saved(0, 0, dest), 2, true).dest ==
            dest + (if a.hops < MAX_HOPS then [Copy(r, a, 0), Copy(r, b, 1)] else [Copy(r, b, 1)])
  {
    var source := [Alive(a), Alive(b)];
    AllMissing(r, source, 0, 2, Keys(dest));
    assert Image(r, source, 0, 0) == [];
    assert Image(r, source, 0, 1) == if a.hops < MAX_HOPS then [Copy(r, a, 0)] else [];
  }
}
