/** What the records a router delivered carry, over whole runs, in terms of the source's fields. */
module ForwardedContents {
  import opened Common
  import opened RouterKey
  import opened Forward
  import opened ForwardRuns
  import opened ExactlyOnce

  /** Whatever the hops. */
  lemma SameCarries(r: Router, msg: Msg, i: nat, a: Msg, b: Msg)
    requires Carries(r, msg, i, a) && a.(hops := 0) == b.(hops := 0)
    ensures Carries(r, msg, i, b)
  {
    assert b == a.(hops := b.hops);
  }

  lemma PlainCarries(r: Router, msg: Msg, i: nat, m: Msg)
    requires m.(hops := 0) == Copy(r, msg, i).(hops := 0)
    ensures Carries(r, msg, i, m)
  {
    CopyCarries(r, msg, i);
    SameCarries(r, msg, i, Copy(r, msg, i), m);
  }

  /** `msgs` holds one record for each of the cells, in order, that carries what the cell holds. */
  ghost predicate Holding(r: Router, cells: seq<Cell>, idx: seq<nat>, msgs: seq<Msg>) {
    && |msgs| == |idx|
    && forall k :: 0 <= k < |idx| ==>
         idx[k] < |cells| && cells[idx[k]].Alive? && Carries(r, cells[idx[k]].msg, idx[k], msgs[k])
  }

  lemma CopiesAreHolding(r: Router, cells: seq<Cell>, idx: seq<nat>, msgs: seq<Msg>)
    requires AllAlive(cells, idx) && Plain(msgs) == Copies(r, cells, idx)
    ensures Holding(r, cells, idx, msgs)
  {
    assert |msgs| == |Plain(msgs)| == |idx|;
    forall k | 0 <= k < |idx| ensures Carries(r, cells[idx[k]].msg, idx[k], msgs[k]) {
      assert Plain(msgs)[k] == Copies(r, cells, idx)[k];
      PlainCarries(r, cells[idx[k]].msg, idx[k], msgs[k]);
    }
  }

  lemma BoundIsEligible(r: Router, cells: seq<Cell>, lo: nat, hi: nat)
    requires hi <= |cells|
    ensures var idx := Bound(r, cells, lo, hi);
            Rising(idx) && forall i :: i in idx <==> lo <= i < hi && Eligible(r, cells[i])
  {
    ImageIsBound(r, cells, lo, hi);
  }

  /** An at-least-once router, over every run of passes, failures and crashes: behind what was there
      first, the destination holds one record for each cell behind the cursor that was eligible
      when it was passed, in cell order, and it carries what the cell held. */
  lemma DestinationCarries(r: Router, source: seq<Cell>, start: nat, origin: seq<Msg>, steps: seq<Step>, w: World)
    requires !r.exactlyOnce && start <= |source| && w == Run(r, Start(source, start, origin), steps)
    ensures |w.passed| == w.now.cursor
    ensures var idx := Bound(r, w.passed, start, w.now.cursor);
            && Rising(idx) && (forall i :: i in idx <==> start <= i < w.now.cursor && Eligible(r, w.passed[i]))
            && |w.now.dest| == |origin| + |idx| && Plain(w.now.dest[..|origin|]) == Plain(origin)
            && Holding(r, w.passed, idx, w.now.dest[|origin|..])
  {
    DestinationIsImage(r, source, start, origin, steps);
    BoundIsEligible(r, w.passed, start, w.now.cursor);
    ImageIsHolding(r, origin, w.now.dest, w.passed, start, w.now.cursor);
  }

  lemma ImageIsHolding(r: Router, origin: seq<Msg>, dest: seq<Msg>, passed: seq<Cell>, lo: nat, hi: nat)
    requires hi <= |passed| && Plain(dest) == Plain(origin) + Plain(Image(r, passed, lo, hi))
    ensures var idx := Bound(r, passed, lo, hi);
            && |dest| == |origin| + |idx| && Plain(dest[..|origin|]) == Plain(origin)
            && Holding(r, passed, idx, dest[|origin|..])
  {
    var idx, image := Bound(r, passed, lo, hi), Image(r, passed, lo, hi);
    ImageIsBound(r, passed, lo, hi);
    assert |Plain(dest)| == |Plain(origin)| + |Plain(image)|;
    assert Plain(dest)[..|origin|] == Plain(origin) && Plain(dest)[|origin|..] == Plain(image);
    assert Plain(dest[..|origin|]) == Plain(dest)[..|origin|] && Plain(dest[|origin|..]) == Plain(dest)[|origin|..];
    CopiesAreHolding(r, passed, idx, dest[|origin|..]);
  }

  /** A record written behind a cursor that has caught up is delivered by the next pass. */
  lemma WrittenIsDelivered(r: Router, w: World, msg: Msg, w1: World)
    requires !r.exactlyOnce && w.now.cursor == |w.source| && Eligible(r, Alive(msg))
    requires w1 == Do(r, Do(r, w, Write([Alive(msg)])), Pass(1, true))
    ensures w1.now.cursor == w.now.cursor + 1 && |w1.now.dest| == |w.now.dest| + 1 && w.now.dest <= w1.now.dest
    ensures Carries(r, msg, w.now.cursor, w1.now.dest[|w.now.dest|]) && w1.now.dest[|w.now.dest|].hops == msg.hops + 1
  {
    var source, c := w.source + [Alive(msg)], w.now.cursor;
    AllMissing(r, source, c, c + 1, Keys(w.now.dest));
    assert Image(r, source, c, c) == [];
    assert Image(r, source, c, c + 1) == [Copy(r, msg, c)];
    CopyCarries(r, msg, c);
  }

  lemma MarkIsHolding(r: Router, start: nat, m: Mark)
    requires Sending(r, start, m) && Owning(r, start, m)
    ensures Distinct(m.sent) && Holding(r, m.passed, m.sent, OwnOf(r, m.now.dest))
    ensures forall i :: i in m.sent <==> start <= i < |m.passed| && Eligible(r, m.passed[i])
  {
    CopiesAreHolding(r, m.passed, m.sent, OwnOf(r, m.now.dest));
  }

  /** An exactly-once router, if no other writer uses its keys: in every run its records in the
      destination are one for each cell that was eligible when last passed, and each carries what
      the cell held and the key of its origin. */
  lemma OwnRecordsCarry(r: Router, source: seq<Cell>, start: nat, origin: seq<Msg>, events: seq<Event>, m: Mark)
    requires r.exactlyOnce && start <= |source| && OwnOf(r, origin) == []
    requires forall k :: 0 <= k < |events| ==> Honest(r, events[k])
    requires m == RunEvents(r, Begin(source, start, origin), events).at
    ensures Distinct(m.sent) && Holding(r, m.passed, m.sent, OwnOf(r, m.now.dest))
    ensures forall i :: i in m.sent <==> start <= i < |m.passed| && Eligible(r, m.passed[i])
  {
    OwnRecordsAreSent(r, source, start, origin, events);
    EachRecordOnce(r, source, start, origin, events);
    MarkIsHolding(r, start, m);
  }
}
