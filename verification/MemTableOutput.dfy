/** Where a flushed memtable goes (Version::PickLevelForMemTableOutput, db/version_set.cc). */
module MemTableOutput {
  import opened Wrappers
  import opened DbFormat
  import opened Versions
  import opened KeyRanges

  ghost predicate BoundedKeys(v: Version) {
    forall l, f :: 0 <= l < NUM_LEVELS && f in v[l] ==> f.largest.seqno <= MAX_SEQUENCE
  }

  predicate OverlapInLevel(v: Version, l: nat, lo: UserKey, hi: UserKey)
    requires l < NUM_LEVELS
  {
    SomeOverlap(v[l], Some(lo), Some(hi))
  }

  /** Bytes in level `l` that a file with this range would overlap. */
  function OverlapBytes(v: Version, l: nat, lo: UserKey, hi: UserKey): nat
    requires l < NUM_LEVELS
  {
    TotalFileSize(OverlapFilter(v[l], Some(lo), Some(hi)))
  }

  /** Reasons not to push a flushed file from `level` to the level below. */
  predicate StopsAt(v: Version, level: nat, lo: UserKey, hi: UserKey, maxGrandParentBytes: nat)
    requires level + 1 < NUM_LEVELS
  {
    || OverlapInLevel(v, level + 1, lo, hi)
    || (level + 2 < NUM_LEVELS && OverlapBytes(v, level + 2, lo, hi) > maxGrandParentBytes)
  }

  /** `level` is the one the code picks: the file overlaps nothing on its way down, and it
      goes as far as the limits let it. */
  ghost predicate OutputLevel(v: Version, lo: UserKey, hi: UserKey, maxGrandParentBytes: nat, level: nat) {
    && level <= MAX_MEM_COMPACT_LEVEL
    && (level > 0 ==> forall l :: 0 <= l <= level ==> !OverlapInLevel(v, l, lo, hi))
    && (forall l :: 0 <= l < level ==> !StopsAt(v, l, lo, hi, maxGrandParentBytes))
    && (level == MAX_MEM_COMPACT_LEVEL || OverlapInLevel(v, 0, lo, hi)
        || StopsAt(v, level, lo, hi, maxGrandParentBytes))
  }

  method PickLevelForMemTableOutput(v: Version, lo: UserKey, hi: UserKey, maxGrandParentBytes: nat)
    returns (level: nat)
    requires ValidVersion(v) && BoundedKeys(v)
    ensures OutputLevel(v, lo, hi, maxGrandParentBytes, level)
  {
    level := 0;
    var overlap := SomeFileOverlapsRange(false, v[0], Some(lo), Some(hi));
    if !overlap {
      while level < MAX_MEM_COMPACT_LEVEL
        invariant level <= MAX_MEM_COMPACT_LEVEL
        invariant forall l :: 0 <= l <= level ==> !OverlapInLevel(v, l, lo, hi)
        invariant forall l :: 0 <= l < level ==> !StopsAt(v, l, lo, hi, maxGrandParentBytes)
      {
        overlap := SomeFileOverlapsRange(true, v[level + 1], Some(lo), Some(hi));
        if overlap {
          break;
        }
        if level + 2 < NUM_LEVELS {
          var overlaps, _, _ := GetOverlappingInputs(level + 2, v[level + 2], Some(lo), Some(hi), []);
          if TotalFileSize(overlaps) > maxGrandParentBytes {
            break;
          }
        }
        level := level + 1;
      }
    }
  }
}
