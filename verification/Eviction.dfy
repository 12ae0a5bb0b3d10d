/** Loss floors, admission and tombstones (`src/engine/eviction.rs`). */
module Eviction {
  import opened Common

  datatype Discard = Old | Reject

  /** A topic's limits; a cap of 0 is no cap. */
  datatype Caps = Caps(discard: Discard, records: nat, bytes: nat)

  /** Whether a write of `n` records and `b` bytes fits beside what is retained. */
  predicate Admits(caps: Caps, haveRecords: nat, haveBytes: nat, n: nat, b: nat) {
    || caps.discard == Old
    || ((caps.records > 0 ==> haveRecords + n <= caps.records) && (caps.bytes > 0 ==> haveBytes + b <= caps.bytes))
  }

  /** The highest seq lost to a cap, to TTL, to deletes and to a trimmed router source. */
  datatype Floors = Floors(evict: nat, expiry: nat, delete: nat, trim: nat)

  /** The highest seq a cap or TTL took. */
  function Lost(f: Floors): int { Max(f.evict, f.expiry) }

  function Involuntary(f: Floors): int { Max(Lost(f), f.trim) }

  /** The first seq not lost, clamped to what exists. */
  function Earliest(f: Floors, base: int, head: int): int {
    Min(Max(Max(Involuntary(f), f.delete) + 1, base), head + 1)
  }

  /** The first seq not lost against the owner's will. */
  function EvictEarliest(f: Floors, base: int, head: int): int {
    Min(Max(Involuntary(f) + 1, base), head + 1)
  }

  datatype Reason = Cap | Ttl | Mixed | SourceTrim | Recreated

  function ReasonForGap(f: Floors, gapFrom: int): Reason {
    var cap, ttl := f.evict >= gapFrom && f.evict > 0, f.expiry >= gapFrom && f.expiry > 0;
    if cap && ttl then Mixed
    else if ttl then Ttl
    else if cap then Cap
    else if f.trim >= gapFrom && f.trim > 0 then SourceTrim
    else Cap
  }

  /** A reported gap: the seqs from `gapFrom` to `gapTo` are lost. */
  datatype Tombstone = Tombstone(gapFrom: int, gapTo: int, reason: Reason, missed: int, earliest: int, head: int)

  function BuildTombstone(from: int, earliest: int, head: int, reason: Reason): Tombstone {
    Tombstone(from + 1, earliest - 1, reason, Max(earliest - 1 - (from + 1), 0) + 1, earliest, head)
  }

  /** The dual watermark: the involuntary floor never passes the reported one, and only
      voluntary deletes lie between them. */
  lemma DualWatermark(f: Floors, base: int, head: int, s: int)
    ensures EvictEarliest(f, base, head) <= Earliest(f, base, head)
    ensures EvictEarliest(f, base, head) <= s < Earliest(f, base, head) ==> s <= f.delete
  {
  }
}
