/** An exactly-once router whose destination keeps its records and is shared with other
    writers: rolling the cursor back, or restoring a snapshot, never duplicates or loses a
    record. */
module ExactlyOnce {
  import opened Common
  import opened RouterKey
  import opened Forward
  import opened ForwardRuns

  /** Where the router is: `furthest` is the highest cursor reached, `passed` the cells below it as
      they were when last passed, `sent` the cells it appended a copy of, in that order, and
      `late` those it appended behind the copy of a later cell. */
  datatype Mark = Mark(now: Saved, furthest: nat, passed: seq<Cell>, sent: seq<nat>, late: set<nat>)

  /** A snapshot: the mark and the source. */
  datatype Kept = Kept(at: Mark, source: seq<Cell>)

  datatype Log = Log(source: seq<Cell>, start: nat, at: Mark, shots: seq<Kept>)

  datatype Event =
    | Grow(cells: seq<Cell>)                // the source grows
    | Advance(k: nat, ok: bool)             // a pass
    | Rollback(cursor: nat)                 // the cursor falls back to any value it has passed
    | Foreign(msgs: seq<Msg>)               // other routers and direct writers append
    | Shoot                                 // a snapshot
    | Revert(m: nat, tail: seq<Cell>)       // a crash: the m-th snapshot comes back, and what the
                                            // source's log holds behind it

  /** The record carries a key of this router. */
  ghost predicate IsOwn(r: Router, m: Msg) { exists i: nat :: MetaKey(m.meta) == Some(Key(OriginOf(r, i))) }

  /** The destination's records that came from this router, in order. */
  ghost function OwnOf(r: Router, dest: seq<Msg>): seq<Msg> {
    if dest == [] then [] else
    OwnOf(r, dest[..|dest| - 1]) + (if IsOwn(r, dest[|dest| - 1]) then [dest[|dest| - 1]] else [])
  }

  ghost predicate AllAlive(cells: seq<Cell>, idx: seq<nat>) {
    forall k :: 0 <= k < |idx| ==> idx[k] < |cells| && cells[idx[k]].Alive?
  }

  /** The copies of these cells, hops aside. */
  ghost function Copies(r: Router, cells: seq<Cell>, idx: seq<nat>): (c: seq<Msg>)
    requires AllAlive(cells, idx)
    ensures |c| == |idx| && forall k :: 0 <= k < |idx| ==> c[k] == Copy(r, cells[idx[k]].msg, idx[k]).(hops := 0)
  {
    seq(|idx|, k requires 0 <= k < |idx| => Copy(r, cells[idx[k]].msg, idx[k]).(hops := 0))
  }

  /** The cells as last passed, once a pass has moved from `lo` to `hi`. */
  function Repassed(passed: seq<Cell>, source: seq<Cell>, lo: nat, hi: nat): (r: seq<Cell>)
    requires lo <= |passed| && lo <= hi <= |source|
    ensures |r| == Max(|passed|, hi)
    ensures forall i :: 0 <= i < |r| ==> r[i] == if lo <= i < hi then source[i] else passed[i]
  {
    passed[..lo] + source[lo..hi] + (if hi <= |passed| then passed[hi..] else [])
  }

  predicate Behind(sent: seq<nat>, i: nat) { exists k :: 0 <= k < |sent| && sent[k] > i }

  function Advanced(r: Router, source: seq<Cell>, m: Mark, k: nat, ok: bool): Mark {
    var x := PassFrom(r, source, m.now, k, ok);
    var lo, hi := m.now.cursor, x.cursor;
    if lo > |m.passed| || hi > |source| || lo == hi then m else
    var due := Due(r, source, lo, hi, Keys(m.now.dest));
    Mark(x, Max(m.furthest, hi), Repassed(m.passed, source, lo, hi), m.sent + due,
         m.late + set i | i in due && Behind(m.sent, i))
  }

  function DoEvent(r: Router, w: Log, e: Event): Log {
    match e
    case Grow(cells) => w.(source := w.source + cells)
    case Advance(k, ok) => w.(at := Advanced(r, w.source, w.at, k, ok))
    case Rollback(c) =>
      if w.start <= c <= w.at.now.cursor then w.(at := w.at.(now := w.at.now.(cursor := c))) else w
    case Foreign(msgs) => w.(at := w.at.(now := w.at.now.(dest := w.at.now.dest + msgs)))
    case Shoot => w.(shots := w.shots + [Kept(w.at, w.source)])
    case Revert(m, tail) =>
      if m >= |w.shots| then w else
      var z := w.shots[m];
      w.(source := Reset(z.source) + tail, at := z.at.(now := z.at.now.(dest := Plain(z.at.now.dest))))
  }

  function Begin(source: seq<Cell>, start: nat, origin: seq<Msg>): Log
    requires start <= |source|
  {
    Log(source, start, Mark(Saved(start, 0, origin), start, source[..start], [], {}), [])
  }

  function RunEvents(r: Router, w: Log, events: seq<Event>): Log {
    if events == [] then w else DoEvent(r, RunEvents(r, w, events[..|events| - 1]), events[|events| - 1])
  }

  /** Between crashes the destination only grows, and by what others append too. */
  lemma DestinationOnlyGrows(r: Router, w: Log, e: Event)
    requires !e.Revert?
    ensures var dest, dest1 := w.at.now.dest, DoEvent(r, w, e).at.now.dest;
            dest <= dest1 && (e.Foreign? ==> dest1 == dest + e.msgs)
  {
  }

  // ---- own records ----------------------------------------------------------

  lemma {:induction false} OwnConcat(r: Router, a: seq<Msg>, b: seq<Msg>)
    ensures OwnOf(r, a + b) == OwnOf(r, a) + OwnOf(r, b)
  {
    if b == [] {
      assert a + b == a;
    } else {
      var n := |b| - 1;
      ConcatInit(a, b);
      OwnConcat(r, a, b[..n]);
      ConcatAssoc(OwnOf(r, a), OwnOf(r, b[..n]), if IsOwn(r, b[n]) then [b[n]] else []);
    }
  }

  lemma {:induction false} OwnOfForeign(r: Router, msgs: seq<Msg>)
    requires forall k :: 0 <= k < |msgs| ==> !IsOwn(r, msgs[k])
    ensures OwnOf(r, msgs) == []
  {
    if msgs != [] { OwnOfForeign(r, msgs[..|msgs| - 1]); }
  }

  lemma CopyIsOwn(r: Router, msg: Msg, i: nat)
    requires r.exactlyOnce
    ensures MetaKey(Copy(r, msg, i).meta) == Some(Key(OriginOf(r, i))) && IsOwn(r, Copy(r, msg, i))
  {
    MetaKeyRoundTrip(msg.meta, OriginOf(r, i), r.source);
  }

  /** All copies are the router's own. */
  ghost predicate AllOwn(r: Router, msgs: seq<Msg>) { forall k :: 0 <= k < |msgs| ==> IsOwn(r, msgs[k]) }

  lemma {:induction false} OwnOfOwn(r: Router, msgs: seq<Msg>)
    requires AllOwn(r, msgs)
    ensures OwnOf(r, msgs) == msgs
  {
    if msgs != [] { OwnOfOwn(r, msgs[..|msgs| - 1]); }
  }

  lemma {:induction false} OwnOfPlain(r: Router, dest: seq<Msg>)
    ensures OwnOf(r, Plain(dest)) == Plain(OwnOf(r, dest))
  {
    if dest != [] {
      var n := |dest| - 1;
      OwnOfPlain(r, dest[..n]);
      assert Plain(dest)[..n] == Plain(dest[..n]);
      assert IsOwn(r, Plain(dest)[n]) <==> IsOwn(r, dest[n]) by { assert Plain(dest)[n].meta == dest[n].meta; }
      PlainConcat(OwnOf(r, dest[..n]), [dest[n]]);
    }
  }

  // ---- which keys the destination holds -------------------------------------

  ghost predicate Holds(msgs: seq<Msg>, key: string) {
    exists k :: 0 <= k < |msgs| && MetaKey(msgs[k].meta) == Some(key)
  }

  lemma {:induction false} OwnHolds(r: Router, dest: seq<Msg>, i: nat)
    ensures Holds(dest, Key(OriginOf(r, i))) <==> Holds(OwnOf(r, dest), Key(OriginOf(r, i)))
  {
    if dest != [] {
      var n, key := |dest| - 1, Key(OriginOf(r, i));
      OwnHolds(r, dest[..n], i);
      var last, init, own := dest[n], dest[..n], OwnOf(r, dest[..n]);
      HoldsSnoc(init, last, key);
      assert dest == init + [last];
      if IsOwn(r, last) { HoldsSnoc(own, last, key); } else { assert own + [] == own; }
    }
  }

  lemma HoldsSnoc(a: seq<Msg>, x: Msg, key: string)
    ensures Holds(a + [x], key) <==> Holds(a, key) || MetaKey(x.meta) == Some(key)
  {
    if Holds(a, key) {
      var k :| 0 <= k < |a| && MetaKey(a[k].meta) == Some(key);
      assert (a + [x])[k] == a[k];
    }
    if MetaKey(x.meta) == Some(key) { assert (a + [x])[|a|] == x; }
  }

  lemma KeyTellsCells(r: Router, i: nat, j: nat)
    ensures Key(OriginOf(r, i)) == Key(OriginOf(r, j)) <==> i == j
  {
    if Key(OriginOf(r, i)) == Key(OriginOf(r, j)) { KeyIsInjective(OriginOf(r, i), OriginOf(r, j)); }
  }


  lemma KeysAreHeld(dest: seq<Msg>, key: string)
    ensures key in Keys(dest) <==> Holds(dest, key)
  {
  }

  lemma {:induction false} HoldsConcat(a: seq<Msg>, b: seq<Msg>, key: string)
    ensures Holds(a + b, key) <==> Holds(a, key) || Holds(b, key)
  {
    if b == [] {
      assert a + b == a;
    } else {
      var n := |b| - 1;
      ConcatInit(a, b);
      HoldsConcat(a, b[..n], key);
      HoldsSnoc(a + b[..n], b[n], key);
      HoldsSnoc(b[..n], b[n], key);
      assert a + b == (a + b[..n]) + [b[n]] && b == b[..n] + [b[n]];
    }
  }

  lemma HoldsPlain(dest: seq<Msg>, key: string)
    ensures Holds(Plain(dest), key) <==> Holds(dest, key)
  {
    if Holds(dest, key) {
      var k :| 0 <= k < |dest| && MetaKey(dest[k].meta) == Some(key);
      assert MetaKey(Plain(dest)[k].meta) == Some(key);
    }
  }

  /** Copies carry exactly the keys of their cells. */
  lemma CopiesHold(r: Router, cells: seq<Cell>, idx: seq<nat>, i: nat)
    requires r.exactlyOnce && AllAlive(cells, idx)
    ensures Holds(Copies(r, cells, idx), Key(OriginOf(r, i))) <==> i in idx
  {
    var c, key := Copies(r, cells, idx), Key(OriginOf(r, i));
    forall k | 0 <= k < |idx| ensures MetaKey(c[k].meta) == Some(Key(OriginOf(r, idx[k]))) {
      CopyIsOwn(r, cells[idx[k]].msg, idx[k]);
    }
    if Holds(c, key) {
      var k :| 0 <= k < |c| && MetaKey(c[k].meta) == Some(key);
      KeyTellsCells(r, i, idx[k]);
    }
    if i in idx {
      var k :| 0 <= k < |idx| && idx[k] == i;
      assert MetaKey(c[k].meta) == Some(key);
    }
  }

  lemma HasMore(r: Router, dest: seq<Msg>, msgs: seq<Msg>, i: nat)
    requires r.exactlyOnce
    ensures Has(r, dest + msgs, i) <==> Has(r, dest, i) || Has(r, msgs, i)
  {
    var key := Key(OriginOf(r, i));
    KeysAreHeld(dest, key);
    KeysAreHeld(msgs, key);
    KeysAreHeld(dest + msgs, key);
    HoldsConcat(dest, msgs, key);
  }

  lemma HasPlain(r: Router, dest: seq<Msg>, i: nat)
    requires r.exactlyOnce
    ensures Has(r, Plain(dest), i) <==> Has(r, dest, i)
  {
    var key := Key(OriginOf(r, i));
    KeysAreHeld(dest, key);
    KeysAreHeld(Plain(dest), key);
    HoldsPlain(dest, key);
  }

  // ---- what a pass appends ---------------------------------------------------

  ghost predicate Distinct(idx: seq<nat>) { forall a, b :: 0 <= a < b < |idx| ==> idx[a] != idx[b] }

  lemma {:induction false} MissingIsDue(r: Router, source: seq<Cell>, lo: nat, hi: nat, keys: set<string>)
    requires hi <= |source|
    ensures var due := Due(r, source, lo, hi, keys);
            && AllAlive(source, due) && Plain(Missing(r, source, lo, hi, keys)) == Copies(r, source, due)
            && |Missing(r, source, lo, hi, keys)| == |due|
    decreases hi
  {
    if lo < hi { MissingIsDue(r, source, lo, hi - 1, keys); }
  }

  lemma {:induction false} MissingIsOwn(r: Router, source: seq<Cell>, lo: nat, hi: nat, keys: set<string>)
    requires hi <= |source| && r.exactlyOnce
    ensures AllOwn(r, Missing(r, source, lo, hi, keys))
    decreases hi
  {
    if lo < hi {
      MissingIsOwn(r, source, lo, hi - 1, keys);
      if source[hi - 1].Alive? { CopyIsOwn(r, source[hi - 1].msg, hi - 1); }
    }
  }

  /** What the destination holds after a pass. */
  lemma PassHolds(r: Router, source: seq<Cell>, lo: nat, hi: nat, dest: seq<Msg>, i: nat)
    requires hi <= |source| && r.exactlyOnce
    ensures Has(r, dest + Missing(r, source, lo, hi, Keys(dest)), i) <==>
            Has(r, dest, i) || i in Due(r, source, lo, hi, Keys(dest))
  {
    var app, due := Missing(r, source, lo, hi, Keys(dest)), Due(r, source, lo, hi, Keys(dest));
    MissingIsDue(r, source, lo, hi, Keys(dest));
    HasMore(r, dest, app, i);
    HasPlain(r, app, i);
    KeysAreHeld(Plain(app), Key(OriginOf(r, i)));
    CopiesHold(r, source, due, i);
  }

  // ---- never twice, never missing --------------------------------------------

  ghost predicate Fit(source: seq<Cell>, start: nat, m: Mark) {
    start <= m.now.cursor <= m.furthest == |m.passed| && AllLowered(m.passed, source, |m.passed|)
  }

  /** No cell was sent twice; what was sent is there; every cell wanted when last passed is there;
      and copies are in source order exactly when none was late. */
  ghost predicate Sending(r: Router, start: nat, m: Mark) {
    && Distinct(m.sent) && (Rising(m.sent) <==> m.late == {})
    && (forall i :: i in m.sent ==> start <= i < |m.passed| && Wanted(r, m.passed[i]) && Has(r, m.now.dest, i))
    && (forall i :: start <= i < |m.passed| && Wanted(r, m.passed[i]) ==> Has(r, m.now.dest, i))
  }

  ghost predicate AllSending(r: Router, w: Log) {
    && Fit(w.source, w.start, w.at) && Sending(r, w.start, w.at)
    && forall k :: 0 <= k < |w.shots| ==>
         Fit(w.shots[k].source, w.start, w.shots[k].at) && Sending(r, w.start, w.shots[k].at)
  }

  /** What is appended behind a sequence of cells keeps them distinct, and rising exactly when each
      lies above all before it. */
  lemma SendMore(sent: seq<nat>, due: seq<nat>, late: set<nat>, late1: set<nat>)
    requires Distinct(sent) && Rising(due) && forall i :: i in due ==> i !in sent
    requires (Rising(sent) <==> late == {}) && late1 == late + set i | i in due && Behind(sent, i)
    ensures Distinct(sent + due) && (Rising(sent + due) <==> late1 == {})
  {
    var all := sent + due;
    forall a, b | 0 <= a < b < |all| ensures all[a] != all[b] {
      if a < |sent| <= b { assert due[b - |sent|] in due && sent[a] in sent; }
    }
    if late1 == {} {
      forall a, b | 0 <= a < b < |all| ensures all[a] < all[b] {
        if a < |sent| <= b {
          var i := due[b - |sent|];
          assert i in due && i !in late1 && sent[a] != i;
          assert !Behind(sent, i);
        }
      }
    } else if late != {} {
      var a, b :| 0 <= a < b < |sent| && sent[a] >= sent[b];
      assert all[a] >= all[b];
    } else {
      var i :| i in late1;
      var b :| 0 <= b < |due| && due[b] == i;
      var a :| 0 <= a < |sent| && sent[a] > i;
      assert all[a] > all[|sent| + b];
    }
  }

  /** A pass that moved: the mark it leaves. */
  lemma AdvancedIs(r: Router, source: seq<Cell>, m: Mark, k: nat, ok: bool)
    requires m.now.cursor <= |m.passed| <= |source|
    ensures var m1 := Advanced(r, source, m, k, ok);
            || m1 == m
            || (var lo, hi, keys := m.now.cursor, m1.now.cursor, Keys(m.now.dest);
                && lo < hi <= |source| && m1.furthest == Max(m.furthest, hi)
                && m1.now.dest == m.now.dest + Missing(r, source, lo, hi, keys)
                && m1.passed == Repassed(m.passed, source, lo, hi) && m1.sent == m.sent + Due(r, source, lo, hi, keys)
                && m1.late == m.late + set i | i in Due(r, source, lo, hi, keys) && Behind(m.sent, i))
  {
  }

  lemma RepassedFits(source: seq<Cell>, start: nat, m: Mark, hi: nat, m1: Mark)
    requires Fit(source, start, m) && m.now.cursor <= hi <= |source| && m1.now.cursor == hi
    requires m1.passed == Repassed(m.passed, source, m.now.cursor, hi) && m1.furthest == Max(m.furthest, hi)
    ensures Fit(source, start, m1)
    ensures forall i :: 0 <= i < |m.passed| ==> Lowered(m.passed[i], m1.passed[i])
  {
  }

  lemma PassKeepsSending(r: Router, source: seq<Cell>, start: nat, m: Mark, k: nat, ok: bool)
    requires r.exactlyOnce && Fit(source, start, m) && Sending(r, start, m)
    ensures Fit(source, start, Advanced(r, source, m, k, ok)) && Sending(r, start, Advanced(r, source, m, k, ok))
  {
    var m1 := Advanced(r, source, m, k, ok);
    AdvancedIs(r, source, m, k, ok);
    if m1 != m {
      var lo, hi, dest := m.now.cursor, m1.now.cursor, m.now.dest;
      var due := Due(r, source, lo, hi, Keys(dest));
      DueIsDue(r, source, lo, hi, dest);
      RepassedFits(source, start, m, hi, m1);
      SendMore(m.sent, due, m.late, m1.late);
      SentIsThere(r, source, start, m, hi, m1);
      WantedIsThere(r, source, start, m, hi, m1);
    }
  }

  lemma SentIsThere(r: Router, source: seq<Cell>, start: nat, m: Mark, hi: nat, m1: Mark)
    requires r.exactlyOnce && Fit(source, start, m) && Sending(r, start, m) && m.now.cursor <= hi <= |source|
    requires m1.passed == Repassed(m.passed, source, m.now.cursor, hi)
    requires m1.now.dest == m.now.dest + Missing(r, source, m.now.cursor, hi, Keys(m.now.dest))
    requires m1.sent == m.sent + Due(r, source, m.now.cursor, hi, Keys(m.now.dest))
    ensures forall i :: i in m1.sent ==> start <= i < |m1.passed| && Wanted(r, m1.passed[i]) && Has(r, m1.now.dest, i)
  {
    DueIsDue(r, source, m.now.cursor, hi, m.now.dest);
    forall i | i in m1.sent
      ensures start <= i < |m1.passed| && Wanted(r, m1.passed[i]) && Has(r, m1.now.dest, i)
    {
      PassHolds(r, source, m.now.cursor, hi, m.now.dest, i);
      if i in m.sent { CopyIgnoresHops(r, m.passed[i], source[i], i); }
    }
  }

  lemma WantedIsThere(r: Router, source: seq<Cell>, start: nat, m: Mark, hi: nat, m1: Mark)
    requires r.exactlyOnce && Fit(source, start, m) && Sending(r, start, m) && m.now.cursor <= hi <= |source|
    requires m1.passed == Repassed(m.passed, source, m.now.cursor, hi)
    requires m1.now.dest == m.now.dest + Missing(r, source, m.now.cursor, hi, Keys(m.now.dest))
    ensures forall i :: start <= i < |m1.passed| && Wanted(r, m1.passed[i]) ==> Has(r, m1.now.dest, i)
  {
    DueIsDue(r, source, m.now.cursor, hi, m.now.dest);
    forall i | start <= i < |m1.passed| && Wanted(r, m1.passed[i]) ensures Has(r, m1.now.dest, i) {
      PassHolds(r, source, m.now.cursor, hi, m.now.dest, i);
    }
  }

  lemma ForeignKeepsSending(r: Router, start: nat, m: Mark, msgs: seq<Msg>)
    requires r.exactlyOnce && Sending(r, start, m)
    ensures Sending(r, start, m.(now := m.now.(dest := m.now.dest + msgs)))
  {
    forall i: nat ensures Has(r, m.now.dest, i) ==> Has(r, m.now.dest + msgs, i) { HasMore(r, m.now.dest, msgs, i); }
  }

  lemma RevertKeepsSending(r: Router, start: nat, z: Kept, tail: seq<Cell>)
    requires r.exactlyOnce && Fit(z.source, start, z.at) && Sending(r, start, z.at)
    ensures var m := z.at.(now := z.at.now.(dest := Plain(z.at.now.dest)));
            Fit(Reset(z.source) + tail, start, m) && Sending(r, start, m)
  {
    forall i: nat ensures Has(r, Plain(z.at.now.dest), i) <==> Has(r, z.at.now.dest, i) {
      HasPlain(r, z.at.now.dest, i);
    }
  }

  lemma EventKeepsSending(r: Router, w: Log, e: Event)
    requires r.exactlyOnce && AllSending(r, w)
    ensures AllSending(r, DoEvent(r, w, e))
  {
    match e
    case Advance(k, ok) => PassKeepsSending(r, w.source, w.start, w.at, k, ok);
    case Foreign(msgs) => ForeignKeepsSending(r, w.start, w.at, msgs);
    case Revert(m, tail) =>
      if m < |w.shots| { RevertKeepsSending(r, w.start, w.shots[m], tail); }
    case _ =>
  }

  /** In every run, however often and far the cursor is rolled back, whatever snapshots come back
      and whatever other writers append, keys of this router included: the router never sends a
      cell to a destination that it sent it to before, every record it wanted when it last passed
      it is there, and its copies are in source order exactly when none was late. */
  lemma {:induction false} EachRecordOnce(r: Router, source: seq<Cell>, start: nat, origin: seq<Msg>,
      events: seq<Event>)
    requires r.exactlyOnce && start <= |source|
    ensures AllSending(r, RunEvents(r, Begin(source, start, origin), events))
    ensures RunEvents(r, Begin(source, start, origin), events).start == start
  {
    if events != [] {
      var n := |events| - 1;
      EachRecordOnce(r, source, start, origin, events[..n]);
      EventKeepsSending(r, RunEvents(r, Begin(source, start, origin), events[..n]), events[n]);
    }
  }

  // ---- the router's records in the destination -------------------------------

  /** Other writers never use this router's keys. */
  ghost predicate Honest(r: Router, e: Event) {
    e.Foreign? ==> forall k :: 0 <= k < |e.msgs| ==> !IsOwn(r, e.msgs[k])
  }

  /** The records with this router's keys are the copies of the cells sent, in that order, hops
      aside; and every cell wanted when last passed was sent. */
  ghost predicate Owning(r: Router, start: nat, m: Mark) {
    && AllAlive(m.passed, m.sent) && Plain(OwnOf(r, m.now.dest)) == Copies(r, m.passed, m.sent)
    && forall i :: start <= i < |m.passed| && Wanted(r, m.passed[i]) ==> i in m.sent
  }

  ghost predicate AllOwning(r: Router, w: Log) {
    Owning(r, w.start, w.at) && forall k :: 0 <= k < |w.shots| ==> Owning(r, w.start, w.shots[k].at)
  }

  /** The keys there are those of the cells sent. */
  lemma HeldIsSent(r: Router, start: nat, m: Mark, i: nat)
    requires r.exactlyOnce && Owning(r, start, m)
    ensures Has(r, m.now.dest, i) <==> i in m.sent
  {
    var key := Key(OriginOf(r, i));
    KeysAreHeld(m.now.dest, key);
    OwnHolds(r, m.now.dest, i);
    HoldsPlain(OwnOf(r, m.now.dest), key);
    CopiesHold(r, m.passed, m.sent, i);
  }

  lemma CopiesConcat(r: Router, cells: seq<Cell>, a: seq<nat>, b: seq<nat>)
    requires AllAlive(cells, a) && AllAlive(cells, b)
    ensures AllAlive(cells, a + b) && Copies(r, cells, a + b) == Copies(r, cells, a) + Copies(r, cells, b)
  {
  }

  lemma CopiesLowered(r: Router, a: seq<Cell>, b: seq<Cell>, idx: seq<nat>)
    requires AllAlive(a, idx) && forall k :: 0 <= k < |idx| ==> idx[k] < |b| && Lowered(a[idx[k]], b[idx[k]])
    ensures AllAlive(b, idx) && Copies(r, a, idx) == Copies(r, b, idx)
  {
    forall k | 0 <= k < |idx|
      ensures b[idx[k]].Alive?
      ensures Copy(r, a[idx[k]].msg, idx[k]).(hops := 0) == Copy(r, b[idx[k]].msg, idx[k]).(hops := 0)
    {
      CopyIgnoresHops(r, a[idx[k]], b[idx[k]], idx[k]);
    }
  }

  /** What a pass adds to the router's records. */
  lemma OwnAfterPass(r: Router, source: seq<Cell>, lo: nat, hi: nat, dest: seq<Msg>)
    requires r.exactlyOnce && hi <= |source|
    ensures var due := Due(r, source, lo, hi, Keys(dest));
            && AllAlive(source, due)
            && Plain(OwnOf(r, dest + Missing(r, source, lo, hi, Keys(dest)))) ==
               Plain(OwnOf(r, dest)) + Copies(r, source, due)
  {
    var app := Missing(r, source, lo, hi, Keys(dest));
    OwnConcat(r, dest, app);
    MissingIsOwn(r, source, lo, hi, Keys(dest));
    OwnOfOwn(r, app);
    PlainConcat(OwnOf(r, dest), app);
    MissingIsDue(r, source, lo, hi, Keys(dest));
  }

  lemma PassOwns(r: Router, source: seq<Cell>, start: nat, m: Mark, hi: nat, m1: Mark)
    requires r.exactlyOnce && Fit(source, start, m) && Owning(r, start, m) && m.now.cursor <= hi <= |source|
    requires m1.passed == Repassed(m.passed, source, m.now.cursor, hi)
    requires m1.now.dest == m.now.dest + Missing(r, source, m.now.cursor, hi, Keys(m.now.dest))
    requires m1.sent == m.sent + Due(r, source, m.now.cursor, hi, Keys(m.now.dest))
    ensures AllAlive(m1.passed, m1.sent) && Plain(OwnOf(r, m1.now.dest)) == Copies(r, m1.passed, m1.sent)
  {
    var lo := m.now.cursor;
    var due := Due(r, source, lo, hi, Keys(m.now.dest));
    OwnAfterPass(r, source, lo, hi, m.now.dest);
    DueIsDue(r, source, lo, hi, m.now.dest);
    CopiesLowered(r, m.passed, m1.passed, m.sent);
    CopiesLowered(r, source, m1.passed, due);
    CopiesConcat(r, m1.passed, m.sent, due);
  }

  lemma PassKeepsOwning(r: Router, source: seq<Cell>, start: nat, m: Mark, k: nat, ok: bool)
    requires r.exactlyOnce && Fit(source, start, m) && Owning(r, start, m)
    ensures Owning(r, start, Advanced(r, source, m, k, ok))
  {
    var m1 := Advanced(r, source, m, k, ok);
    AdvancedIs(r, source, m, k, ok);
    if m1 != m {
      var lo, hi := m.now.cursor, m1.now.cursor;
      PassOwns(r, source, start, m, hi, m1);
      DueIsDue(r, source, lo, hi, m.now.dest);
      forall i | start <= i < |m1.passed| && Wanted(r, m1.passed[i]) ensures i in m1.sent {
        HeldIsSent(r, start, m, i);
      }
    }
  }

  lemma EventKeepsOwning(r: Router, w: Log, e: Event)
    requires r.exactlyOnce && Honest(r, e) && AllSending(r, w) && AllOwning(r, w)
    ensures AllOwning(r, DoEvent(r, w, e))
  {
    match e
    case Advance(k, ok) => PassKeepsOwning(r, w.source, w.start, w.at, k, ok);
    case Foreign(msgs) =>
      OwnConcat(r, w.at.now.dest, msgs);
      OwnOfForeign(r, msgs);
      assert OwnOf(r, w.at.now.dest) + [] == OwnOf(r, w.at.now.dest);
    case Revert(m, tail) =>
      if m < |w.shots| {
        OwnOfPlain(r, w.shots[m].at.now.dest);
        assert Plain(Plain(OwnOf(r, w.shots[m].at.now.dest))) == Plain(OwnOf(r, w.shots[m].at.now.dest));
      }
    case _ =>
  }

  /** If no other writer uses the router's keys: in every run the router's records in the
      destination are the copies of exactly the records it wanted when it last passed them, each
      once and none missing, in the order they were sent. */
  lemma {:induction false} OwnRecordsAreSent(r: Router, source: seq<Cell>, start: nat, origin: seq<Msg>,
      events: seq<Event>)
    requires r.exactlyOnce && start <= |source| && OwnOf(r, origin) == []
    requires forall k :: 0 <= k < |events| ==> Honest(r, events[k])
    ensures AllOwning(r, RunEvents(r, Begin(source, start, origin), events))
  {
    if events != [] {
      var n := |events| - 1;
      OwnRecordsAreSent(r, source, start, origin, events[..n]);
      EachRecordOnce(r, source, start, origin, events[..n]);
      EventKeepsOwning(r, RunEvents(r, Begin(source, start, origin), events[..n]), events[n]);
    }
  }

  /** No two of the router's records carry the same key. */
  lemma OwnKeysDiffer(r: Router, start: nat, m: Mark, a: nat, b: nat)
    requires r.exactlyOnce && Sending(r, start, m) && Owning(r, start, m) && a < b < |OwnOf(r, m.now.dest)|
    ensures var own := OwnOf(r, m.now.dest);
            MetaKey(own[a].meta).Some? && MetaKey(own[a].meta) != MetaKey(own[b].meta)
  {
    var own, i, j := OwnOf(r, m.now.dest), m.sent[a], m.sent[b];
    assert Plain(own)[a] == own[a].(hops := 0) && Plain(own)[b] == own[b].(hops := 0);
    CopyIsOwn(r, m.passed[i].msg, i);
    CopyIsOwn(r, m.passed[j].msg, j);
    KeyTellsCells(r, i, j);
  }

  /** A pass sends exactly the records it wants that lie beyond the furthest cursor or have come
      back below the hop cap since they were passed. */
  lemma PassSendsExactly(r: Router, source: seq<Cell>, start: nat, m: Mark, lo: nat, hi: nat, i: nat)
    requires r.exactlyOnce && Fit(source, start, m) && Sending(r, start, m) && Owning(r, start, m)
    requires start <= lo && hi <= |source|
    ensures i in Due(r, source, lo, hi, Keys(m.now.dest)) <==>
            && lo <= i < hi && Wanted(r, source[i])
            && (i < m.furthest ==> Revived(r, m.passed[i], source[i]))
  {
    DueIsDue(r, source, lo, hi, m.now.dest);
    HeldIsSent(r, start, m, i);
  }

  // ---- in source order -------------------------------------------------------

  /** The cells of `cells[lo..hi]` bound for the destination. */
  function Bound(r: Router, cells: seq<Cell>, lo: nat, hi: nat): seq<nat>
    requires hi <= |cells|
    decreases hi
  {
    if hi <= lo then [] else
    Bound(r, cells, lo, hi - 1) + (if Wanted(r, cells[hi - 1]) then [hi - 1] else [])
  }

  lemma {:induction false} ImageIsBound(r: Router, cells: seq<Cell>, lo: nat, hi: nat)
    requires hi <= |cells|
    ensures var idx := Bound(r, cells, lo, hi);
            && AllAlive(cells, idx) && Plain(Image(r, cells, lo, hi)) == Copies(r, cells, idx)
            && Rising(idx) && (forall i :: i in idx <==> lo <= i < hi && Wanted(r, cells[i]))
    decreases hi
  {
    if lo < hi {
      ImageIsBound(r, cells, lo, hi - 1);
      var d0, d := Bound(r, cells, lo, hi - 1), Bound(r, cells, lo, hi);
      RisingSnoc(d0, hi - 1);
      assert d == if Wanted(r, cells[hi - 1]) then d0 + [hi - 1] else d0;
    }
  }

  /** Rising sequences of the same cells are the same. */
  lemma {:induction false} RisingIsUnique(a: seq<nat>, b: seq<nat>)
    requires Rising(a) && Rising(b) && forall i :: i in a <==> i in b
    ensures a == b
  {
    assert a != [] ==> a[0] in a;
    assert b != [] ==> b[0] in b;
    if a != [] {
      var n, m := |a| - 1, |b| - 1;
      LastIsHighest(a);
      LastIsHighest(b);
      assert a[n] in a && b[m] in b;
      assert a[n] == b[m];
      forall i ensures i in a[..n] <==> i in b[..m] {
        InitIsRest(a, i);
        InitIsRest(b, i);
      }
      RisingIsUnique(a[..n], b[..m]);
    }
  }

  lemma LastIsHighest(a: seq<nat>)
    requires Rising(a)
    ensures forall i :: i in a ==> i <= a[|a| - 1]
  {
    forall i | i in a ensures i <= a[|a| - 1] {
      var k :| 0 <= k < |a| && a[k] == i;
    }
  }

  lemma InitIsRest(a: seq<nat>, i: nat)
    requires Rising(a) && a != []
    ensures i in a[..|a| - 1] <==> i in a && i != a[|a| - 1]
  {
  }

  /** Equal copies in the same order are copies of the same cells, as their keys tell. */
  lemma CopiesTellCells(r: Router, x: seq<Cell>, a: seq<nat>, y: seq<Cell>, b: seq<nat>)
    requires r.exactlyOnce && AllAlive(x, a) && AllAlive(y, b) && Copies(r, x, a) == Copies(r, y, b)
    ensures a == b
  {
    assert |a| == |Copies(r, x, a)| == |b|;
    forall k | 0 <= k < |a| ensures a[k] == b[k] {
      CopyIsOwn(r, x[a[k]].msg, a[k]);
      CopyIsOwn(r, y[b[k]].msg, b[k]);
      assert Copies(r, x, a)[k] == Copies(r, y, b)[k];
      KeyTellsCells(r, a[k], b[k]);
    }
  }

  /** The router's records are the image of the source up to its furthest cursor, in source order
      and hops aside, exactly when none of its records was late, sent behind the copy of a later
      one, and none was at the hop cap when last passed and has come back below it. */
  lemma InOrderExactlyWhen(r: Router, source: seq<Cell>, start: nat, m: Mark)
    requires r.exactlyOnce && Fit(source, start, m) && Sending(r, start, m) && Owning(r, start, m)
    ensures Plain(OwnOf(r, m.now.dest)) == Plain(Image(r, source, start, m.furthest)) <==>
            m.late == {} && NoneRevived(r, m.passed, source, start, m.furthest)
  {
    var idx := Bound(r, source, start, m.furthest);
    ImageIsBound(r, source, start, m.furthest);
    forall i | i in m.sent ensures i in idx { CopyIgnoresHops(r, m.passed[i], source[i], i); }
    if m.late == {} && NoneRevived(r, m.passed, source, start, m.furthest) {
      forall i | i in idx ensures i in m.sent { assert !Revived(r, m.passed[i], source[i]); }
      RisingIsUnique(m.sent, idx);
      CopiesLowered(r, m.passed, source, m.sent);
    } else if Copies(r, m.passed, m.sent) == Copies(r, source, idx) {
      CopiesTellCells(r, m.passed, m.sent, source, idx);
    }
  }

  // ---- sources whose records never reach the cap -----------------------------

  ghost predicate ShallowEvent(r: Router, e: Event) {
    match e
    case Grow(cells) => BelowCap(r, cells)
    case Revert(_, tail) => BelowCap(r, tail)
    case _ => true
  }

  ghost predicate ShallowMark(r: Router, source: seq<Cell>, m: Mark) {
    BelowCap(r, source) && BelowCap(r, m.passed) && m.late == {}
  }

  ghost predicate ShallowLog(r: Router, w: Log) {
    && ShallowMark(r, w.source, w.at)
    && forall k :: 0 <= k < |w.shots| ==> ShallowMark(r, w.shots[k].source, w.shots[k].at)
  }

  /** Then nothing due lies below the furthest cursor, so nothing is late. */
  lemma ShallowIsNotLate(r: Router, source: seq<Cell>, start: nat, m: Mark, hi: nat)
    requires r.exactlyOnce && Fit(source, start, m) && Sending(r, start, m) && ShallowMark(r, source, m)
    requires hi <= |source|
    ensures forall i :: i in Due(r, source, m.now.cursor, hi, Keys(m.now.dest)) ==> !Behind(m.sent, i)
  {
    DueIsDue(r, source, m.now.cursor, hi, m.now.dest);
    forall i | i in Due(r, source, m.now.cursor, hi, Keys(m.now.dest)) ensures !Behind(m.sent, i) {
      if i < |m.passed| { CopyIgnoresHops(r, m.passed[i], source[i], i); }
      assert |m.passed| <= i;
      assert forall k :: 0 <= k < |m.sent| ==> m.sent[k] in m.sent;
    }
  }

  lemma PassStaysShallow(r: Router, source: seq<Cell>, start: nat, m: Mark, k: nat, ok: bool)
    requires r.exactlyOnce && Fit(source, start, m) && Sending(r, start, m) && ShallowMark(r, source, m)
    ensures ShallowMark(r, source, Advanced(r, source, m, k, ok))
  {
    var m1 := Advanced(r, source, m, k, ok);
    AdvancedIs(r, source, m, k, ok);
    if m1 != m {
      ShallowIsNotLate(r, source, start, m, m1.now.cursor);
      assert BelowCap(r, m1.passed);
    }
  }

  lemma EventStaysShallow(r: Router, w: Log, e: Event)
    requires r.exactlyOnce && AllSending(r, w) && ShallowLog(r, w) && ShallowEvent(r, e)
    ensures ShallowLog(r, DoEvent(r, w, e))
  {
    match e
    case Advance(k, ok) => PassStaysShallow(r, w.source, w.start, w.at, k, ok);
    case _ =>
  }

  lemma {:induction false} RunStaysShallow(r: Router, source: seq<Cell>, start: nat, origin: seq<Msg>,
      events: seq<Event>)
    requires r.exactlyOnce && start <= |source| && BelowCap(r, source)
    requires forall k :: 0 <= k < |events| ==> ShallowEvent(r, events[k])
    ensures ShallowLog(r, RunEvents(r, Begin(source, start, origin), events))
  {
    if events != [] {
      var n := |events| - 1;
      RunStaysShallow(r, source, start, origin, events[..n]);
      EachRecordOnce(r, source, start, origin, events[..n]);
      EventStaysShallow(r, RunEvents(r, Begin(source, start, origin), events[..n]), events[n]);
    }
  }

  /** If no record of the source ever reaches the cap, as when it takes only direct writes, and no
      other writer uses the router's keys: in every run its records in the destination are the
      image of the source up to the furthest cursor, each once, in order, none missing. */
  lemma ShallowSourceInOrder(r: Router, source: seq<Cell>, start: nat, origin: seq<Msg>, events: seq<Event>)
    requires r.exactlyOnce && start <= |source| && BelowCap(r, source) && OwnOf(r, origin) == []
    requires forall k :: 0 <= k < |events| ==> ShallowEvent(r, events[k]) && Honest(r, events[k])
    ensures var w := RunEvents(r, Begin(source, start, origin), events);
            && w.at.furthest <= |w.source|
            && Plain(OwnOf(r, w.at.now.dest)) == Plain(Image(r, w.source, start, w.at.furthest))
  {
    var w := RunEvents(r, Begin(source, start, origin), events);
    EachRecordOnce(r, source, start, origin, events);
    OwnRecordsAreSent(r, source, start, origin, events);
    RunStaysShallow(r, source, start, origin, events);
    forall i | start <= i < w.at.furthest ensures !Revived(r, w.at.passed[i], w.source[i]) {
      CopyIgnoresHops(r, w.at.passed[i], w.source[i], i);
    }
    InOrderExactlyWhen(r, w.source, start, w.at);
  }

  /** Two records, the first at the cap: a pass sends the second. */
  lemma FirstPass(r: Router, a: Msg, b: Msg, m: Mark)
    requires r.exactlyOnce && r.filter.None? && a.hops == MAX_HOPS && b.hops == 0
    requires m == Advanced(r, [Alive(a), Alive(b)], Mark(Saved(0, 0, []), 0, [], [], {}), 2, true)
    ensures m.sent == [1] && m.late == {} && m.now.cursor == m.furthest == |m.passed| == 2
    ensures !Has(r, m.now.dest, 0) && Has(r, m.now.dest, 1)
  {
    var source := [Alive(a), Alive(b)];
    assert Keys([]) == {};
    DueOfTwo(r, a, b, {});
    PassHolds(r, source, 0, 2, [], 0);
    PassHolds(r, source, 0, 2, [], 1);
    assert PassFrom(r, source, Saved(0, 0, []), 2, true).cursor == 2;
    AdvancedIs(r, source, Mark(Saved(0, 0, []), 0, [], [], {}), 2, true);
  }

  /** Back below the cap, the first is sent behind the second. */
  lemma SecondPass(r: Router, a: Msg, b: Msg, m: Mark)
    requires r.exactlyOnce && r.filter.None? && a.hops == 0 && b.hops == 0
    requires m.sent == [1] && m.late == {} && m.now.cursor == 0 && |m.passed| == 2
    requires !Has(r, m.now.dest, 0) && Has(r, m.now.dest, 1)
    ensures var m1 := Advanced(r, [Alive(a), Alive(b)], m, 2, true); m1.sent == [1, 0] && m1.late == {0}
  {
    var source := [Alive(a), Alive(b)];
    DueOfTwo(r, a, b, Keys(m.now.dest));
    assert PassFrom(r, source, m.now, 2, true).cursor == 2;
    AdvancedIs(r, source, m, 2, true);
    assert m.sent[0] == 1 && Behind(m.sent, 0);
  }

  /** A run that is late: the record at the cap is passed over and its successor is sent, a
      restored snapshot brings it back below the cap, the cursor is rolled back, and it is sent
      behind its successor. */
  lemma RevivedComesLate(r: Router, a: Msg, b: Msg)
    requires r.exactlyOnce && r.filter.None? && a.hops == MAX_HOPS && b.hops == 0
    ensures var w := Begin([Alive(a), Alive(b)], 0, []);
            var u := DoEvent(r, DoEvent(r, w, Advance(2, true)), Shoot);
            var v := DoEvent(r, DoEvent(r, DoEvent(r, u, Revert(0, [])), Rollback(0)), Advance(2, true));
            u.at.sent == [1] && u.at.late == {} && v.at.sent == [1, 0] && v.at.late == {0}
  {
    var a0, source := a.(hops := 0), [Alive(a), Alive(b)];
    var w := Begin(source, 0, []);
    var u := DoEvent(r, w, Advance(2, true));
    FirstPass(r, a, b, u.at);
    var u1 := DoEvent(r, u, Shoot);
    assert u1.shots == [Kept(u.at, source)];
    var v := DoEvent(r, DoEvent(r, u1, Revert(0, [])), Rollback(0));
    assert Reset(source) + [] == [Alive(a0), Alive(b)];
    HasPlain(r, u.at.now.dest, 0);
    HasPlain(r, u.at.now.dest, 1);
    SecondPass(r, a0, b, v.at);
  }

  lemma DueOfTwo(r: Router, a: Msg, b: Msg, keys: set<string>)
    requires r.exactlyOnce && r.filter.None? && b.hops < MAX_HOPS
    ensures Due(r, [Alive(a), Alive(b)], 0, 2, keys) ==
            (if a.hops < MAX_HOPS && Key(OriginOf(r, 0)) !in keys then [0] else [])
            + (if Key(OriginOf(r, 1)) !in keys then [1] else [])
  {
    var source := [Alive(a), Alive(b)];
    assert Due(r, source, 0, 0, keys) == [];
    assert Due(r, source, 0, 1, keys) == if a.hops < MAX_HOPS && Key(OriginOf(r, 0)) !in keys then [0] else [];
  }
}
