/** Derived router forwarding (`advance_router` in `src/engine/mod.rs`): one batch-limited,
    back-pressured pass over a source log into a destination. */
module Forward {
  import opened Common
  import opened RouterKey
  import E = Eviction
  import T = TopicLog

  const MAX_HOPS: nat := 8
  const BATCH: nat := 1024
  const MAX_RECORD_BYTES: nat := 1048576

  datatype Msg = Msg(node: Option<string>, tag: Option<string>, data: string, meta: Option<Json>, bytes: nat, hops: nat)

  /** A source slot: a record, or one that is deleted or reclaimed. */
  datatype Cell = Alive(msg: Msg) | Gone

  /** A router and the source incarnation it reads; source cell `i` has seq `base + i`. */
  datatype Router = Router(name: string, filter: Option<T.Filter>, preserveNode: bool, preserveTag: bool,
                           exactlyOnce: bool,
                           source: string, sourceId: nat, epoch: nat, base: nat)

  function OriginOf(r: Router, i: nat): Origin { Origin(r.name, r.sourceId, r.epoch, r.base + i) }

  /** The record is bound for the destination: alive, below the hop cap, and let through. */
  predicate Wanted(r: Router, cell: Cell) {
    && cell.Alive? && cell.msg.hops < MAX_HOPS
    && (r.filter.Some? ==> T.Matches(r.filter.value, T.Rec(cell.msg.tag, "")))
  }

  /** What the router delivers for source cell `i`. */
  function Copy(r: Router, msg: Msg, i: nat): Msg {
    Msg(if r.preserveNode then msg.node else None,
        if r.preserveTag then msg.tag else None,
        msg.data,
        if r.exactlyOnce then Some(WithRouterMeta(msg.meta, OriginOf(r, i), r.source)) else msg.meta,
        if r.exactlyOnce then msg.bytes + |Key(OriginOf(r, i))| + |r.name| + |r.source| else msg.bytes,
        msg.hops + 1)
  }

  /** The filtered and transformed image of `source[lo..hi]`, in order. */
  function Image(r: Router, source: seq<Cell>, lo: nat, hi: nat): seq<Msg>
    requires hi <= |source|
    decreases hi
  {
    if hi <= lo then [] else
    Image(r, source, lo, hi - 1) + (if Wanted(r, source[hi - 1]) then [Copy(r, source[hi - 1].msg, hi - 1)] else [])
  }

  /** The part of the image whose keys the destination does not hold yet. */
  function Missing(r: Router, source: seq<Cell>, lo: nat, hi: nat, keys: set<string>): seq<Msg>
    requires hi <= |source|
    decreases hi
  {
    if hi <= lo then [] else
    Missing(r, source, lo, hi - 1, keys) +
    (if Wanted(r, source[hi - 1]) && !(r.exactlyOnce && Key(OriginOf(r, hi - 1)) in keys)
     then [Copy(r, source[hi - 1].msg, hi - 1)] else [])
  }

  function Bytes(msgs: seq<Msg>): nat {
    if msgs == [] then 0 else Bytes(msgs[..|msgs| - 1]) + msgs[|msgs| - 1].bytes
  }

  /** The keys the destination holds. */
  function Keys(dest: seq<Msg>): set<string> {
    set k | 0 <= k < |dest| && MetaKey(dest[k].meta).Some? :: MetaKey(dest[k].meta).value
  }

  /** The destination already holds this router's copy of cell `i`. */
  predicate Has(r: Router, dest: seq<Msg>, i: nat) { r.exactlyOnce && Key(OriginOf(r, i)) in Keys(dest) }

  /** A copy can be appended behind `pending` more: it is not too large and the caps admit it. */
  predicate Fits(r: Router, dest: seq<Msg>, pending: seq<Msg>, copy: Msg, caps: E.Caps) {
    && (r.exactlyOnce ==> copy.bytes <= MAX_RECORD_BYTES)
    && E.Admits(caps, |dest| + |pending|, Bytes(dest) + Bytes(pending), 1, copy.bytes)
  }

  /** A copy fits unless it is too large, or the topic rejects it. */
  lemma FitsUnless(r: Router, dest: seq<Msg>, pending: seq<Msg>, copy: Msg, caps: E.Caps)
    ensures Fits(r, dest, pending, copy, caps) <==>
            && !(r.exactlyOnce && copy.bytes > MAX_RECORD_BYTES)
            && !(caps.discard == E.Reject
                 && !E.Admits(caps, |dest| + |pending|, Bytes(dest) + Bytes(pending), 1, copy.bytes))
  {
  }

  /** A topic that rejects holds no more records and no more bytes than its caps allow. */
  ghost predicate WithinCaps(caps: E.Caps, dest: seq<Msg>) {
    caps.discard == E.Reject ==>
      (caps.records > 0 ==> |dest| <= caps.records) && (caps.bytes > 0 ==> Bytes(dest) <= caps.bytes)
  }

  lemma {:induction false} BytesConcat(a: seq<Msg>, b: seq<Msg>)
    ensures Bytes(a + b) == Bytes(a) + Bytes(b)
  {
    if b == [] {
      assert a + b == a;
    } else {
      BytesConcat(a, b[..|b| - 1]);
      ConcatInit(a, b);
    }
  }

  /** What a pass appends keeps a rejecting topic within its caps. */
  lemma StaysWithinCaps(r: Router, dest: seq<Msg>, toAppend: seq<Msg>, caps: E.Caps)
    requires AllFit(r, dest, toAppend, caps) && WithinCaps(caps, dest)
    ensures WithinCaps(caps, dest + toAppend)
  {
    BytesConcat(dest, toAppend);
    if toAppend != [] {
      var n := |toAppend| - 1;
      assert Fits(r, dest, toAppend[..n], toAppend[n], caps);
    }
  }

  /** A copy is held back only if it is too large for an exactly-once router, or if the topic rejects
      and it would exceed a cap. */
  lemma HeldBackOnlyWhenFull(r: Router, source: seq<Cell>, i: nat, dest: seq<Msg>, toAppend: seq<Msg>, caps: E.Caps)
    requires Blocked(r, source, i, dest, toAppend, caps)
    ensures var copy := Copy(r, source[i].msg, i);
            || (r.exactlyOnce && copy.bytes > MAX_RECORD_BYTES)
            || (&& caps.discard == E.Reject
                && (|| (caps.records > 0 && |dest + toAppend| + 1 > caps.records)
                    || (caps.bytes > 0 && Bytes(dest + toAppend) + copy.bytes > caps.bytes)))
  {
    BytesConcat(dest, toAppend);
  }

  /** Why a pass stops before the batch end: the next copy is wanted, not there yet, and does
      not fit. */
  predicate Blocked(r: Router, source: seq<Cell>, i: nat, dest: seq<Msg>, toAppend: seq<Msg>, caps: E.Caps) {
    i < |source| && Wanted(r, source[i]) && !Has(r, dest, i)
        && !Fits(r, dest, toAppend, Copy(r, source[i].msg, i), caps)
  }

  /** Every copy of a batch fitted behind those before it. */
  ghost predicate AllFit(r: Router, dest: seq<Msg>, toAppend: seq<Msg>, caps: E.Caps) {
    forall k :: 0 <= k < |toAppend| ==> Fits(r, dest, toAppend[..k], toAppend[k], caps)
  }

  lemma FitsOneMore(r: Router, dest: seq<Msg>, toAppend: seq<Msg>, copy: Msg, caps: E.Caps)
    requires AllFit(r, dest, toAppend, caps) && Fits(r, dest, toAppend, copy, caps)
    ensures AllFit(r, dest, toAppend + [copy], caps)
  {
    var more := toAppend + [copy];
    forall k | 0 <= k < |more| ensures Fits(r, dest, more[..k], more[k], caps) {
      assert more[..k] == if k < |toAppend| then toAppend[..k] else toAppend;
    }
  }

  /** A pass under way: what it appends and counts for the cells from `lo` up to `hi`. */
  ghost predicate Walking(r: Router, source: seq<Cell>, lo: nat, hi: nat, dest: seq<Msg>, caps: E.Caps,
                          toAppend: seq<Msg>, forwarded: nat) {
    && hi <= |source| && toAppend == Missing(r, source, lo, hi, Keys(dest))
    && forwarded == |Image(r, source, lo, hi)| && AllFit(r, dest, toAppend, caps)
  }

  lemma WalkStarts(r: Router, source: seq<Cell>, lo: nat, dest: seq<Msg>, caps: E.Caps)
    requires lo <= |source|
    ensures Walking(r, source, lo, lo, dest, caps, [], 0)
  {
  }

  /** The pass skips a cell that is not wanted, or only counts one that is there already. */
  lemma WalkPast(r: Router, source: seq<Cell>, lo: nat, hi: nat, dest: seq<Msg>, caps: E.Caps,
                 toAppend: seq<Msg>, forwarded: nat)
    requires Walking(r, source, lo, hi, dest, caps, toAppend, forwarded) && lo <= hi < |source|
    requires !Wanted(r, source[hi]) || Has(r, dest, hi)
    ensures Walking(r, source, lo, hi + 1, dest, caps, toAppend, forwarded + Ind(Wanted(r, source[hi])))
  {
    assert toAppend + [] == toAppend;
  }

  /** The pass takes a copy that is wanted, not there yet, and fits. */
  lemma WalkOver(r: Router, source: seq<Cell>, lo: nat, hi: nat, dest: seq<Msg>, caps: E.Caps,
                 toAppend: seq<Msg>, forwarded: nat, copy: Msg)
    requires Walking(r, source, lo, hi, dest, caps, toAppend, forwarded) && lo <= hi < |source|
    requires Wanted(r, source[hi]) && !Has(r, dest, hi) && copy == Copy(r, source[hi].msg, hi)
    requires Fits(r, dest, toAppend, copy, caps)
    ensures Walking(r, source, lo, hi + 1, dest, caps, toAppend + [copy], forwarded + 1)
  {
    FitsOneMore(r, dest, toAppend, copy, caps);
  }

  /** What a pass does with a cell. */
  datatype Verdict = Skip | There | Defer | Take

  method Judge(r: Router, source: seq<Cell>, i: nat, dest: seq<Msg>, keys: set<string>, caps: E.Caps,
               toAppend: seq<Msg>)
    returns (v: Verdict)
    requires i < |source| && keys == Keys(dest)
    ensures v.Skip? <==> !Wanted(r, source[i])
    ensures v.There? ==> Has(r, dest, i)
    ensures v.Defer? ==> Blocked(r, source, i, dest, toAppend, caps)
    ensures v.Take? ==> !Has(r, dest, i) && Fits(r, dest, toAppend, Copy(r, source[i].msg, i), caps)
  {
    if !Wanted(r, source[i]) {
      return Skip;
    }
    if r.exactlyOnce && Key(OriginOf(r, i)) in keys {
      return There;
    }
    var copy := Copy(r, source[i].msg, i);
    FitsUnless(r, dest, toAppend, copy, caps);
    if r.exactlyOnce && copy.bytes > MAX_RECORD_BYTES {
      return Defer;
    }
    if caps.discard == E.Reject
        && !E.Admits(caps, |dest| + |toAppend|, Bytes(dest) + Bytes(toAppend), 1, copy.bytes) {
      return Defer;
    }
    return Take;
  }

  /** One pass: the records to append, how far the cursor moves and how many are accounted
      as forwarded. */
  method Walk(r: Router, source: seq<Cell>, cursor: nat, dest: seq<Msg>, caps: E.Caps)
    returns (consumed: nat, toAppend: seq<Msg>, forwarded: nat, deferred: bool)
    requires cursor <= |source|
    ensures consumed <= BATCH && Walking(r, source, cursor, cursor + consumed, dest, caps, toAppend, forwarded)
    ensures deferred ==> Blocked(r, source, cursor + consumed, dest, toAppend, caps)
    ensures !deferred ==> consumed == BATCH || cursor + consumed == |source|
  {
    var end := if |source| <= cursor + BATCH then |source| else cursor + BATCH;
    consumed, toAppend, forwarded, deferred := 0, [], 0, false;
    var keys := Keys(dest);
    WalkStarts(r, source, cursor, dest, caps);
    while cursor + consumed < end
      invariant cursor + consumed <= end && !deferred
      invariant Walking(r, source, cursor, cursor + consumed, dest, caps, toAppend, forwarded)
    {
      var i := cursor + consumed;
      var v := Judge(r, source, i, dest, keys, caps, toAppend);
      match v {
        case Defer =>
          deferred := true;
          break;
        case Take =>
          var copy := Copy(r, source[i].msg, i);
          WalkOver(r, source, cursor, i, dest, caps, toAppend, forwarded, copy);
          toAppend, forwarded := toAppend + [copy], forwarded + 1;
        case There =>
          WalkPast(r, source, cursor, i, dest, caps, toAppend, forwarded);
          forwarded := forwarded + 1;
        case Skip =>
          WalkPast(r, source, cursor, i, dest, caps, toAppend, forwarded);
      }
      consumed := consumed + 1;
    }
  }

  // ---- the image ------------------------------------------------------------

  lemma {:induction false} ImageSplits(r: Router, source: seq<Cell>, lo: nat, mid: nat, hi: nat)
    requires lo <= mid <= hi <= |source|
    ensures Image(r, source, lo, hi) == Image(r, source, lo, mid) + Image(r, source, mid, hi)
    decreases hi
  {
    if mid < hi {
      ImageSplits(r, source, lo, mid, hi - 1);
      ConcatAssoc(Image(r, source, lo, mid), Image(r, source, mid, hi - 1),
                  if Wanted(r, source[hi - 1]) then [Copy(r, source[hi - 1].msg, hi - 1)] else []);
    } else {
      assert Image(r, source, lo, mid) + [] == Image(r, source, lo, mid);
    }
  }

  /** Appends to the source do not change the image of what was there. */
  lemma {:induction false} ImageOfPrefix(r: Router, source: seq<Cell>, more: seq<Cell>, lo: nat, hi: nat)
    requires hi <= |source|
    ensures Image(r, source + more, lo, hi) == Image(r, source, lo, hi)
    decreases hi
  {
    if lo < hi { ImageOfPrefix(r, source, more, lo, hi - 1); }
  }

  /** An at-least-once router misses nothing: it never looks at keys. */
  lemma {:induction false} AllMissing(r: Router, source: seq<Cell>, lo: nat, hi: nat, keys: set<string>)
    requires hi <= |source| && !r.exactlyOnce
    ensures Missing(r, source, lo, hi, keys) == Image(r, source, lo, hi)
    decreases hi
  {
    if lo < hi { AllMissing(r, source, lo, hi - 1, keys); }
  }

  // ---- what a destination record carries ------------------------------------

  /** The cells a pass over `source[lo..hi]` appends a copy of. */
  function Due(r: Router, source: seq<Cell>, lo: nat, hi: nat, keys: set<string>): seq<nat>
    requires hi <= |source|
    decreases hi
  {
    if hi <= lo then [] else
    Due(r, source, lo, hi - 1, keys)
        + (if Wanted(r, source[hi - 1]) && !(r.exactlyOnce && Key(OriginOf(r, hi - 1)) in keys) then [hi - 1] else [])
  }

  ghost predicate Rising(idx: seq<nat>) { forall a, b :: 0 <= a < b < |idx| ==> idx[a] < idx[b] }

  lemma RisingSnoc(idx: seq<nat>, n: nat)
    requires Rising(idx) && forall i :: i in idx ==> i < n
    ensures Rising(idx + [n]) && forall i :: i in idx + [n] <==> i in idx || i == n
  {
    forall a, b | 0 <= a < b < |idx + [n]| ensures (idx + [n])[a] < (idx + [n])[b] {
      assert idx[a] in idx;
    }
  }

  /** The cells due are those wanted and not there yet, in source order. */
  ghost predicate IsDue(r: Router, source: seq<Cell>, lo: nat, hi: nat, dest: seq<Msg>, due: seq<nat>) {
    && hi <= |source| && Rising(due)
    && forall i :: i in due <==> lo <= i < hi && Wanted(r, source[i]) && !Has(r, dest, i)
  }

  lemma {:induction false} DueHolds(r: Router, source: seq<Cell>, lo: nat, hi: nat, dest: seq<Msg>, i: nat)
    requires hi <= |source|
    ensures i in Due(r, source, lo, hi, Keys(dest)) <==> lo <= i < hi && Wanted(r, source[i]) && !Has(r, dest, i)
    decreases hi
  {
    if lo < hi { DueHolds(r, source, lo, hi - 1, dest, i); }
  }

  lemma {:induction false} DueRises(r: Router, source: seq<Cell>, lo: nat, hi: nat, dest: seq<Msg>)
    requires hi <= |source|
    ensures Rising(Due(r, source, lo, hi, Keys(dest)))
    decreases hi
  {
    if lo < hi {
      var d0 := Due(r, source, lo, hi - 1, Keys(dest));
      DueRises(r, source, lo, hi - 1, dest);
      forall i | i in d0 ensures i < hi - 1 { DueHolds(r, source, lo, hi - 1, dest, i); }
      RisingSnoc(d0, hi - 1);
    }
  }

  lemma DueIsDue(r: Router, source: seq<Cell>, lo: nat, hi: nat, dest: seq<Msg>)
    requires hi <= |source|
    ensures IsDue(r, source, lo, hi, dest, Due(r, source, lo, hi, Keys(dest)))
  {
    DueRises(r, source, lo, hi, dest);
    forall i: nat { DueHolds(r, source, lo, hi, dest, i); }
  }

  /** The record is alive, hopped fewer than eight times, and has the tag the filter asks for. */
  predicate Eligible(r: Router, cell: Cell) {
    && cell.Alive? && cell.msg.hops < 8
    && match r.filter
       case None => true
       case Some(Eq(tag)) => cell.msg.tag == Some(tag)
       case Some(Glob(prefix)) => cell.msg.tag.Some? && prefix <= cell.msg.tag.value
  }

  /** The earlier metadata is still there: beside the router's, or under it if it is no object or is
      full. */
  ghost predicate KeepsMeta(before: Option<Json>, after: Option<Json>) {
    before.Some? ==>
      && after.Some? && after.value.Obj?
      && if before.value.Obj? && (ROUTER_META in before.value.fields || |before.value.fields| < MAX_META_KEYS)
         then after.value.fields - {ROUTER_META} == before.value.fields - {ROUTER_META}
         else ORIGINAL_META in after.value.fields && after.value.fields[ORIGINAL_META] == before.value
  }

  /** `m` carries what source cell `i` holds: its data; its node and tag, or neither, as the router
      preserves them; its metadata, and with it the key of its origin if the router is
      exactly-once. */
  ghost predicate Carries(r: Router, msg: Msg, i: nat, m: Msg) {
    && m.data == msg.data
    && (r.preserveNode ==> m.node == msg.node) && (!r.preserveNode ==> m.node == None)
    && (r.preserveTag ==> m.tag == msg.tag) && (!r.preserveTag ==> m.tag == None)
    && (!r.exactlyOnce ==> m.meta == msg.meta && m.bytes == msg.bytes)
    && (r.exactlyOnce ==>
          && m.meta.Some? && m.meta.value.Obj?
          && MetaKey(m.meta) == Some(Key(Origin(r.name, r.sourceId, r.epoch, r.base + i)))
          && KeepsMeta(msg.meta, m.meta) && msg.bytes <= m.bytes
          && ROUTER_META in m.meta.value.fields
          && Provenance(Origin(r.name, r.sourceId, r.epoch, r.base + i), r.source, m.meta.value.fields[ROUTER_META]))
  }

  lemma CopyCarries(r: Router, msg: Msg, i: nat)
    ensures Carries(r, msg, i, Copy(r, msg, i)) && Copy(r, msg, i).hops == msg.hops + 1
  {
    MetaKeyRoundTrip(msg.meta, OriginOf(r, i), r.source);
  }

  /** The eligible cells of `source[lo..hi]`. */
  ghost function EligibleIn(r: Router, source: seq<Cell>, lo: nat, hi: nat): set<nat>
    requires hi <= |source|
  {
    set i: nat | lo <= i < hi && Eligible(r, source[i])
  }

  /** The image has one record for each of them. */
  lemma {:induction false} ImageCounts(r: Router, source: seq<Cell>, lo: nat, hi: nat)
    requires hi <= |source|
    ensures |Image(r, source, lo, hi)| == |EligibleIn(r, source, lo, hi)|
    decreases hi
  {
    if lo < hi {
      ImageCounts(r, source, lo, hi - 1);
      assert EligibleIn(r, source, lo, hi) ==
             EligibleIn(r, source, lo, hi - 1) + if Eligible(r, source[hi - 1]) then {hi - 1} else {};
    } else {
      assert EligibleIn(r, source, lo, hi) == {};
    }
  }

  /** `app` holds one record for each cell of `idx`, in order, that carries what the cell holds and has
      hopped once more. */
  ghost predicate CarriesAll(r: Router, source: seq<Cell>, idx: seq<nat>, app: seq<Msg>) {
    && |idx| == |app|
    && forall k :: 0 <= k < |idx| ==>
         && idx[k] < |source| && source[idx[k]].Alive? && Carries(r, source[idx[k]].msg, idx[k], app[k])
         && app[k].hops == source[idx[k]].msg.hops + 1
  }

  lemma {:induction false} MissingCarries(r: Router, source: seq<Cell>, lo: nat, hi: nat, keys: set<string>)
    requires hi <= |source|
    ensures CarriesAll(r, source, Due(r, source, lo, hi, keys), Missing(r, source, lo, hi, keys))
    decreases hi
  {
    if lo < hi {
      MissingCarries(r, source, lo, hi - 1, keys);
      if source[hi - 1].Alive? { CopyCarries(r, source[hi - 1].msg, hi - 1); }
    }
  }

  /** What a pass appends, in the source's terms: one record for each eligible cell it passes that is
      not there yet, in cell order, that carries what the cell holds and has hopped once more. */
  lemma PassAppendsExactly(r: Router, source: seq<Cell>, lo: nat, hi: nat, dest: seq<Msg>, idx: seq<nat>)
    requires hi <= |source| && idx == Due(r, source, lo, hi, Keys(dest))
    ensures Rising(idx) && CarriesAll(r, source, idx, Missing(r, source, lo, hi, Keys(dest)))
    ensures forall i :: i in idx <==> lo <= i < hi && Eligible(r, source[i]) && !Has(r, dest, i)
  {
    DueIsDue(r, source, lo, hi, dest);
    MissingCarries(r, source, lo, hi, Keys(dest));
  }
}
