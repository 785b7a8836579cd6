/** The current version and the choice of the next compaction
    (PickCompaction and CompactRange in db/version_set.cc). */
module VersionSets {
  import opened Wrappers
  import opened DbFormat
  import opened Tables
  import opened Versions
  import opened KeyRanges
  import opened CompactionInputs

  /** Why a background compaction starts; scores and seek counts are not modelled. */
  datatype Trigger = TooMuchData(level: nat) | TooManySeeks(level: nat, file: File) | NoTrigger

  /** Something the code can find: a level with files, or a file of the current version. */
  ghost predicate ValidTrigger(v: Version, t: Trigger) {
    match t
    case TooMuchData(l) => l + 1 < NUM_LEVELS && v[l] != []
    case TooManySeeks(l, f) => l + 1 < NUM_LEVELS && f in v[l]
    case NoTrigger => true
  }

  predicate AfterPointer(f: File, pointer: Option<InternalKey>) {
    pointer.None? || Less(pointer.value, f.largest)
  }

  /** The file that a size compaction starts from: the first one past the point where the
      last compaction of the level ended, or the first of all. */
  ghost predicate NextInTurn(files: seq<File>, pointer: Option<InternalKey>, i: nat) {
    && i < |files|
    && (forall j :: 0 <= j < i ==> !AfterPointer(files[j], pointer))
    && (AfterPointer(files[i], pointer) || (i == 0 && forall f :: f in files ==> !AfterPointer(f, pointer)))
  }

  class VersionSet {
    var current: Version
    var compactPointer: seq<Option<InternalKey>>

    ghost predicate Valid()
      reads this
    {
      ValidVersion(current) && |compactPointer| == NUM_LEVELS
    }

    constructor ()
      ensures Valid()
      ensures current == [[], [], [], [], [], [], []]
      ensures forall l :: 0 <= l < NUM_LEVELS ==> compactPointer[l] == None
    {
      current := [[], [], [], [], [], [], []];
      compactPointer := seq(NUM_LEVELS, _ => None);
    }

    /** First file after the compaction pointer of the level, wrapping around. */
    method FileToCompact(level: nat) returns (index: nat)
      requires Valid() && level < NUM_LEVELS && current[level] != []
      ensures NextInTurn(current[level], compactPointer[level], index)
    {
      index := 0;
      while index < |current[level]|
        invariant index <= |current[level]|
        invariant forall j :: 0 <= j < index ==> !AfterPointer(current[level][j], compactPointer[level])
      {
        if AfterPointer(current[level][index], compactPointer[level]) {
          return;
        }
        index := index + 1;
      }
      index := 0;
    }

    /** PickCompaction.  The files it picks are closed in both levels and, together, leave
        no gap in the user keys they span. */
    method PickCompaction(t: Trigger, expandedLimit: nat) returns (r: Option<Inputs>)
      requires Valid() && ValidTrigger(current, t)
      modifies this`compactPointer
      ensures Valid()
      ensures r.None? <==> t.NoTrigger?
      ensures r.None? ==> compactPointer == old(compactPointer)
      ensures r.Some? ==>
        && r.value.level == t.level
        && ValidInputs(current, r.value)
        && GapFree(r.value.All())
        && compactPointer == old(compactPointer)[t.level := Some(LargestKey(r.value.upper))]
      ensures t.TooManySeeks? ==>
        t.file in r.value.upper && IsChoiceFor(current, t.file, expandedLimit, r.value)
      ensures t.TooMuchData? ==> exists i: nat ::
        && NextInTurn(current[t.level], old(compactPointer)[t.level], i) && current[t.level][i] in r.value.upper
        && IsChoiceFor(current, current[t.level][i], expandedLimit, r.value)
    {
      if t.NoTrigger? {
        return None;
      }
      var level := t.level;
      var index: nat;
      if t.TooMuchData? {
        index := FileToCompact(level);
      } else {
        index :| 0 <= index < |current[level]| && current[level][index] == t.file;
      }
      var f := current[level][index];
      var picked := PickFrom(current, level, index);
      var c, largest, _ := SetupOtherInputs(current, level, picked, expandedLimit);
      compactPointer := compactPointer[level := Some(largest)];
      assert f in c.upper;
      assert IsChoiceFor(current, f, expandedLimit, c);
      r := Some(c);
    }

    /** CompactRange: a manual compaction of the files of one level that touch a range. */
    method CompactRange(level: nat, begin: Option<UserKey>, end: Option<UserKey>,
                        maxFileSize: nat, expandedLimit: nat) returns (r: Option<Inputs>)
      requires Valid() && level + 1 < NUM_LEVELS
      modifies this`compactPointer
      ensures Valid()
      ensures r.None? <==> !SomeOverlap(current[level], begin, end)
      ensures r.None? ==> compactPointer == old(compactPointer)
      ensures r.Some? ==>
        && r.value.level == level
        && ValidInputs(current, r.value)
        && IsManualChoice(current, begin, end, maxFileSize, expandedLimit, r.value)
        && compactPointer == old(compactPointer)[level := Some(LargestKey(r.value.upper))]
    {
      hide HullClosed, IsSomeRun, LeastClosure, Includes, SomeOverlap, ValidInputs, LevelSorted, DistinctNumbers, Covered;
      hide IsOverlap, IsCut, IsChoice;
      var files := current[level];
      var inputs, lo, hi := GetOverlappingInputs(level, files, begin, end, []);
      ManualIsPickable(level, files, begin, end, lo, hi, inputs);
      if inputs == [] {
        return None;
      }
      var picked := inputs;
      if level > 0 {
        picked := CutManual(files, inputs, maxFileSize);
      }
      var c, largest, _ := SetupOtherInputs(current, level, picked, expandedLimit);
      compactPointer := compactPointer[level := Some(largest)];
      r := Some(c);
    }
  }

  /** The files that a background compaction starts from: one, and in level 0 those that it
      drags along. */
  ghost predicate IsPicked(level: nat, files: seq<File>, f: File, picked: seq<File>) {
    if level == 0 then IsOverlap(0, files, Some(f.smallest.user), Some(f.largest.user), picked) else picked == [f]
  }

  ghost predicate IsChoiceFor(v: Version, f: File, expandedLimit: nat, c: Inputs)
    requires c.level + 1 < NUM_LEVELS
  {
    exists picked :: IsPicked(c.level, v[c.level], f, picked) && IsChoice(v, picked, expandedLimit, c)
  }

  /** The shortest beginning that reaches the limit, or all. */
  ghost predicate IsCut(inputs: seq<File>, maxFileSize: nat, cut: seq<File>) {
    && cut != [] && cut <= inputs
    && (cut == inputs || TotalFileSize(cut) >= maxFileSize)
    && forall n :: 0 < n < |cut| ==> TotalFileSize(cut[..n]) < maxFileSize
  }

  ghost predicate IsManualChoice(v: Version, begin: Option<UserKey>, end: Option<UserKey>, maxFileSize: nat,
                                 expandedLimit: nat, c: Inputs)
    requires c.level + 1 < NUM_LEVELS
  {
    exists inputs, picked ::
      && IsOverlap(c.level, v[c.level], begin, end, inputs)
      && (if c.level == 0 then picked == inputs else IsCut(inputs, maxFileSize, picked))
      && IsChoice(v, picked, expandedLimit, c)
  }

  /** A manual compaction above level 0 takes the first files that reach the size limit. */
  method CutManual(files: seq<File>, inputs: seq<File>, maxFileSize: nat) returns (cut: seq<File>)
    requires inputs != [] && IsSomeRun(files, inputs)
    ensures IsCut(inputs, maxFileSize, cut) && IsSomeRun(files, cut)
  {
    var total := 0;
    assert inputs[..0] == [];
    for i := 0 to |inputs|
      invariant total == TotalFileSize(inputs[..i])
      invariant forall n :: 0 < n <= i ==> TotalFileSize(inputs[..n]) < maxFileSize
    {
      OneMoreSize(inputs, i);
      total := total + inputs[i].size;
      if total >= maxFileSize {
        RunPrefix(files, inputs, i + 1);
        cut := inputs[..i + 1];
        assert forall n :: 0 < n <= i ==> cut[..n] == inputs[..n];
        return;
      }
    }
    cut := inputs;
  }

  lemma {:induction false} OneMoreSize(files: seq<File>, i: nat)
    requires i < |files|
    ensures TotalFileSize(files[..i + 1]) == TotalFileSize(files[..i]) + files[i].size
    decreases i
  {
    if i > 0 {
      OneMoreSize(files[1..], i - 1);
      assert files[..i + 1][1..] == files[1..][..i] && files[..i][1..] == files[1..][..i - 1];
    }
  }

  /** The picked file, in level 0 with all files it drags along. */
  method PickFrom(v: Version, level: nat, index: nat) returns (picked: seq<File>)
    requires ValidVersion(v) && level < NUM_LEVELS && index < |v[level]|
    ensures Pickable(level, v[level], picked) && GapFree(picked)
    ensures IsPicked(level, v[level], v[level][index], picked) && v[level][index] in picked
  {
    var files := v[level];
    var f := files[index];
    picked := [f];
    WithinBounds(f, f.entries[0]);
    assert Covered(picked, f.smallest.user, f.largest.user) by {
      assert forall x: UserKey :: f.smallest.user <= x <= f.largest.user ==> CoversUserKey(f, x) && f in picked;
    }
    if level == 0 {
      var smallest, largest := GetRange(picked);
      var inputs, lo, hi := GetOverlappingInputs(0, files, Some(smallest.user), Some(largest.user), [f]);
      Level0Closure(files, f, lo, hi, inputs);
      picked := inputs;
    } else {
      assert files[index..index + 1] == [f];
      assert IsRun(files, index, index + 1, picked);
      CoversRangeGapFree(picked, f.smallest.user, f.largest.user);
    }
  }

  lemma Level0Closure(files: seq<File>, f: File, lo: Option<UserKey>, hi: Option<UserKey>, inputs: seq<File>)
    requires ValidFiles(files) && f in files
    requires inputs == OverlapFilter(files, lo, hi)
    requires LeastClosure(files, Some(f.smallest.user), Some(f.largest.user), lo, hi)
    requires lo.Some? && hi.Some?
    requires Covered([f], f.smallest.user, f.largest.user)
    requires Covered([f] + files, f.smallest.user, f.largest.user) ==> Covered([f] + files, lo.value, hi.value)
    ensures HullClosed(files, inputs) && GapFree(inputs) && f in inputs
  {
    WithinBounds(f, f.entries[0]);
    assert Overlaps(f, lo, hi);
    CoveredMonotone([f], [f] + files, f.smallest.user, f.largest.user);
    forall x: UserKey | lo.value <= x <= hi.value
      ensures CoveredAt(inputs, x)
    {
      assert CoveredAt([f] + files, x);
      var g :| g in [f] + files && CoversUserKey(g, x);
      assert g in inputs;
    }
    assert forall g :: g in inputs ==> Within(g, lo, hi);
    CoversRangeGapFree(inputs, lo.value, hi.value);
    var first, last := RangeIsExact(inputs);
    assert Within(first, lo, hi) && Within(last, lo, hi);
  }

  lemma ManualIsPickable(level: nat, files: seq<File>, begin: Option<UserKey>, end: Option<UserKey>,
                         lo: Option<UserKey>, hi: Option<UserKey>, inputs: seq<File>)
    requires ValidFiles(files) && (level > 0 ==> LevelSorted(files))
    requires inputs == OverlapFilter(files, lo, hi) && Includes(lo, hi, begin, end)
    requires level > 0 ==> lo == begin && hi == end
    requires level == 0 ==> LeastClosure(files, begin, end, lo, hi)
    ensures inputs == [] <==> !SomeOverlap(files, begin, end)
    ensures inputs != [] ==> Pickable(level, files, inputs)
    ensures IsOverlap(level, files, begin, end, inputs)
  {
    if level > 0 {
      var a, b := FilterIsRun(files, lo, hi);
      assert inputs != [] ==> IsRun(files, a, b, inputs);
      assert inputs != [] ==> inputs[0] in inputs;
    } else {
      Level0ManualIsPickable(files, begin, end, lo, hi, inputs);
    }
  }

  lemma Level0ManualIsPickable(files: seq<File>, begin: Option<UserKey>, end: Option<UserKey>,
                               lo: Option<UserKey>, hi: Option<UserKey>, inputs: seq<File>)
    requires ValidFiles(files) && inputs == OverlapFilter(files, lo, hi) && LeastClosure(files, begin, end, lo, hi)
    ensures inputs == [] <==> !SomeOverlap(files, begin, end)
    ensures inputs != [] ==> HullClosed(files, inputs)
  {
    if inputs != [] {
      var first, last := RangeIsExact(inputs);
      assert Within(first, lo, hi) && Within(last, lo, hi);
      assert first in inputs;
      if !SomeOverlap(files, begin, end) {
        NothingToGrow(files, begin, end, lo, hi);
      }
    } else {
      forall f | f in files
        ensures !Overlaps(f, begin, end)
      {
        assert !Overlaps(f, lo, hi);
      }
    }
  }

  /** If nothing overlaps the range, the range is its own closure. */
  lemma NothingToGrow(files: seq<File>, begin: Option<UserKey>, end: Option<UserKey>, lo: Option<UserKey>,
                      hi: Option<UserKey>)
    requires !SomeOverlap(files, begin, end) && LeastClosure(files, begin, end, lo, hi)
    ensures lo == begin && hi == end
  {
    assert OverlapClosed(files, begin, end);
    assert Includes(begin, end, begin, end);
  }

  lemma RunPrefix(files: seq<File>, inputs: seq<File>, n: nat)
    requires IsSomeRun(files, inputs) && 0 < n <= |inputs|
    ensures IsSomeRun(files, inputs[..n])
  {
    var a: nat, b: nat :| IsRun(files, a, b, inputs);
    assert inputs[..n] == files[a..a + n];
    assert IsRun(files, a, a + n, inputs[..n]);
  }
}
