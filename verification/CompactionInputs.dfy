/** Choosing the files of a compaction (PickCompaction, CompactRange, SetupOtherInputs and
    AddBoundaryInputs in db/version_set.cc). */
module CompactionInputs {
  import opened Wrappers
  import opened DbFormat
  import opened Sequences
  import opened Tables
  import opened Versions
  import opened KeyRanges

  /** GetRange: the least and greatest internal key of some files. */
  function SmallestKey(files: seq<File>): InternalKey
    requires files != []
  {
    var last := files[|files| - 1];
    if |files| == 1 then last.smallest
    else
      var rest := SmallestKey(files[..|files| - 1]);
      if Less(last.smallest, rest) then last.smallest else rest
  }

  function LargestKey(files: seq<File>): InternalKey
    requires files != []
  {
    var last := files[|files| - 1];
    if |files| == 1 then last.largest
    else
      var rest := LargestKey(files[..|files| - 1]);
      if Less(rest, last.largest) then last.largest else rest
  }

  /** The range of some files is attained, and it includes each of them. */
  lemma {:induction false} RangeIsExact(files: seq<File>) returns (first: File, last: File)
    requires files != []
    ensures first in files && first.smallest == SmallestKey(files)
    ensures last in files && last.largest == LargestKey(files)
    ensures forall f :: f in files ==> InRange(f, files)
  {
    var n := |files| - 1;
    first, last := files[n], files[n];
    if n > 0 {
      var init := files[..n];
      var f0, l0 := RangeIsExact(init);
      if !Less(files[n].smallest, SmallestKey(init)) { first := f0; }
      if !Less(LargestKey(init), files[n].largest) { last := l0; }
      AllInWiderRange(files, init);
    }
  }

  lemma AllInWiderRange(files: seq<File>, init: seq<File>)
    requires |files| > 1 && init == files[..|files| - 1]
    requires forall f :: f in init ==> InRange(f, init)
    ensures forall f :: f in files ==> InRange(f, files)
  {
    SplitLast(files);
    forall f | f in files
      ensures InRange(f, files)
    {
      if f in init {
        InWiderRange(files, init, f);
      }
    }
  }

  lemma InWiderRange(files: seq<File>, init: seq<File>, f: File)
    requires |files| > 1 && init == files[..|files| - 1] && InRange(f, init)
    ensures InRange(f, files)
  {
  }

  predicate InRange(f: File, files: seq<File>)
    requires files != []
  {
    && LessEq(SmallestKey(files), f.smallest) && LessEq(f.largest, LargestKey(files))
    && LowUser(files) <= f.smallest.user && f.largest.user <= HighUser(files)
  }

  function LowUser(files: seq<File>): UserKey
    requires files != []
  {
    SmallestKey(files).user
  }

  function HighUser(files: seq<File>): UserKey
    requires files != []
  {
    LargestKey(files).user
  }

  /** GetRange as the code computes it: one pass over the files. */
  method GetRange(inputs: seq<File>) returns (smallest: InternalKey, largest: InternalKey)
    requires inputs != []
    ensures smallest == SmallestKey(inputs) && largest == LargestKey(inputs)
  {
    smallest, largest := inputs[0].smallest, inputs[0].largest;
    for i := 1 to |inputs|
      invariant smallest == SmallestKey(inputs[..i]) && largest == LargestKey(inputs[..i])
    {
      assert inputs[..i + 1][..i] == inputs[..i];
      if Less(inputs[i].smallest, smallest) {
        smallest := inputs[i].smallest;
      }
      if Less(largest, inputs[i].largest) {
        largest := inputs[i].largest;
      }
    }
    assert inputs[..|inputs|] == inputs;
  }

  /** A file that continues the user key with which the chosen files end. */
  predicate IsBoundaryFile(f: File, largest: InternalKey) {
    Less(largest, f.smallest) && f.smallest.user == largest.user
  }

  ghost predicate IsSmallestBoundaryFile(files: seq<File>, largest: InternalKey, f: File) {
    && f in files
    && IsBoundaryFile(f, largest)
    && forall g :: g in files && IsBoundaryFile(g, largest) ==> LessEq(f.smallest, g.smallest)
  }

  method FindSmallestBoundaryFile(files: seq<File>, largest: InternalKey) returns (r: Option<File>)
    ensures r.None? ==> forall f :: f in files ==> !IsBoundaryFile(f, largest)
    ensures r.Some? ==> IsSmallestBoundaryFile(files, largest, r.value)
  {
    r := None;
    for i := 0 to |files|
      invariant r.None? ==> forall j :: 0 <= j < i ==> !IsBoundaryFile(files[j], largest)
      invariant r.Some? ==> IsSmallestBoundaryFile(files[..i], largest, r.value)
    {
      var f := files[i];
      assert files[..i + 1] == files[..i] + [f];
      if IsBoundaryFile(f, largest) {
        if r.None? || Less(f.smallest, r.value.smallest) {
          r := Some(f);
        }
      }
    }
    assert files[..|files|] == files;
  }

  ghost function FilesAfter(files: seq<File>, k: InternalKey): set<File> {
    set f | f in files && Less(k, f.smallest)
  }

  /** File `i` of the list is the one AddBoundaryInputs adds to the files before it. */
  ghost predicate ChainStep(levelFiles: seq<File>, r: seq<File>, i: nat) {
    0 < i < |r| && IsSmallestBoundaryFile(levelFiles, LargestKey(r[..i]), r[i])
  }

  /** AddBoundaryInputs: extend until no file continues the last user key. */
  method AddBoundaryInputs(levelFiles: seq<File>, files: seq<File>) returns (r: seq<File>)
    requires ValidFiles(levelFiles)
    ensures files <= r
    ensures files == [] ==> r == []
    ensures r != [] ==> forall f :: f in levelFiles ==> !IsBoundaryFile(f, LargestKey(r))
    ensures forall i :: 0 < |files| <= i < |r| ==> ChainStep(levelFiles, r, i)
  {
    r := files;
    if files == [] {
      return;
    }
    var largest := LargestKey(files);
    var searching := true;
    while searching
      invariant files <= r
      invariant largest == LargestKey(r)
      invariant !searching ==> forall f :: f in levelFiles ==> !IsBoundaryFile(f, largest)
      invariant forall i :: |files| <= i < |r| ==> ChainStep(levelFiles, r, i)
      decreases FilesAfter(levelFiles, largest), searching
    {
      var b := FindSmallestBoundaryFile(levelFiles, largest);
      if b.Some? {
        ghost var r0 := r;
        assert b.value in FilesAfter(levelFiles, largest);
        WithinBounds(b.value, b.value.entries[0]);
        r := r + [b.value];
        forall i | |files| <= i < |r|
          ensures ChainStep(levelFiles, r, i)
        {
          assert i < |r0| ==> ChainStep(levelFiles, r0, i);
          assert r[..i] == r0[..i];
        }
        assert r[..|r0|] == r0;
        largest := b.value.largest;
        assert b.value !in FilesAfter(levelFiles, largest);
      } else {
        searching := false;
      }
    }
  }

  // ---------- what the chosen files look like ----------

  /** In a level above 0 the chosen files are neighbours. */
  ghost predicate IsRun(files: seq<File>, a: nat, b: nat, inputs: seq<File>) {
    a < b <= |files| && inputs == files[a..b]
  }

  /** The next file does not continue the user key with which the run ends. */
  predicate EndsUserKey(files: seq<File>, b: nat) {
    !Continues(files, b)
  }

  predicate Continues(files: seq<File>, k: nat) {
    0 < k < |files| && files[k].smallest.user == files[k - 1].largest.user
  }

  /** Every file of [b, c) continues the user key with which its predecessor ends. */
  predicate ContinuesThrough(files: seq<File>, b: nat, c: nat)
    decreases c
  {
    b == c || (b < c && ContinuesThrough(files, b, c - 1) && Continues(files, c - 1))
  }

  lemma {:induction false} RunRange(files: seq<File>, a: nat, b: nat)
    requires ValidFiles(files) && LevelSorted(files) && a < b <= |files|
    ensures SmallestKey(files[a..b]) == files[a].smallest
    ensures LargestKey(files[a..b]) == files[b - 1].largest
  {
    LargestAscends(files);
    if b - a > 1 {
      assert files[a..b][..b - a - 1] == files[a..b - 1];
      RunRange(files, a, b - 1);
    }
  }

  /** The files of a sorted level that overlap a range are neighbours. */
  lemma {:induction false} FilterIsRun(files: seq<File>, lo: Option<UserKey>, hi: Option<UserKey>) returns (a: nat, b: nat)
    requires ValidFiles(files) && LevelSorted(files)
    ensures a <= b <= |files| && OverlapFilter(files, lo, hi) == files[a..b]
  {
    if files == [] {
      a, b := 0, 0;
    } else {
      var n := |files| - 1;
      var init := files[..n];
      a, b := FilterIsRun(init, lo, hi);
      SliceOfPrefix(files, n, a, b);
      a, b := FilterStep(files, lo, hi, a, b);
    }
  }

  lemma FilterStep(files: seq<File>, lo: Option<UserKey>, hi: Option<UserKey>, a0: nat, b0: nat) returns (a: nat, b: nat)
    requires ValidFiles(files) && LevelSorted(files) && files != []
    requires a0 <= b0 < |files| && OverlapFilter(files[..|files| - 1], lo, hi) == files[a0..b0]
    ensures a <= b <= |files| && OverlapFilter(files, lo, hi) == files[a..b]
  {
    hide ValidFiles, LevelSorted, Overlaps;
    var n := |files| - 1;
    a, b := a0, b0;
    if Overlaps(files[n], lo, hi) {
      if a0 == b0 {
        a, b := n, n + 1;
        LastSlice(files);
      } else {
        RunReachesEnd(files, lo, hi, a0, b0);
        SliceExtend(files, a0, n);
        b := n + 1;
      }
    }
  }

  lemma RunReachesEnd(files: seq<File>, lo: Option<UserKey>, hi: Option<UserKey>, a: nat, b: nat)
    requires ValidFiles(files) && LevelSorted(files) && files != []
    requires a < b < |files| && OverlapFilter(files[..|files| - 1], lo, hi) == files[a..b]
    requires Overlaps(files[|files| - 1], lo, hi)
    ensures b == |files| - 1
  {
    hide ValidFiles, LevelSorted;
    var n := |files| - 1;
    FirstOfSlice(files, a, b);
    assert Overlaps(files[a], lo, hi);
    UsersAscend(files, a, n - 1);
    UsersAscend(files, n - 1, n);
    assert Overlaps(files[n - 1], lo, hi);
    LastOfPrefix(files, n);
    RunIsMember(files, a, b, n - 1);
  }

  lemma FirstOfSlice(files: seq<File>, a: nat, b: nat)
    requires a < b <= |files|
    ensures files[a] in files[a..b]
  {
    assert files[a..b][0] == files[a];
  }

  lemma LastOfPrefix(files: seq<File>, n: nat)
    requires 0 < n <= |files|
    ensures files[n - 1] in files[..n]
  {
    assert files[..n][n - 1] == files[n - 1];
  }

  lemma UsersAscend(files: seq<File>, i: nat, j: nat)
    requires ValidFiles(files) && LevelSorted(files) && i <= j < |files|
    ensures files[i].smallest.user <= files[j].smallest.user && files[i].largest.user <= files[j].largest.user
  {
    if i < j {
      LargestAscends(files);
      assert Less(files[i].largest, files[j].largest);
      assert Less(files[i].smallest, files[j].smallest);
    }
  }

  lemma RunIsMember(files: seq<File>, a: nat, b: nat, i: nat)
    requires ValidFiles(files) && LevelSorted(files) && a <= b <= |files| && i < |files|
    requires files[i] in files[a..b]
    ensures a <= i < b
  {
    var j :| 0 <= j < b - a && files[a..b][j] == files[i];
    SameFileSameIndex(files, a + j, i);
  }

  lemma SameFileSameIndex(files: seq<File>, i: nat, j: nat)
    requires ValidFiles(files) && LevelSorted(files) && i < |files| && j < |files|
    requires files[i] == files[j]
    ensures i == j
  {
    LargestAscends(files);
    LessIsTotal(files[i].smallest, files[i].smallest, files[i].smallest);
  }

  /** AddBoundaryInputs applied to a run of a sorted level gives the run extended to the
      end of its last user key. */
  lemma {:induction false} BoundaryIsRun(files: seq<File>, a: nat, b: nat, r: seq<File>) returns (c: nat)
    requires ValidFiles(files) && LevelSorted(files) && a < b <= |files|
    requires files[a..b] <= r
    requires forall i :: b - a <= i < |r| ==> ChainStep(files, r, i)
    ensures b <= c <= |files| && r == files[a..c]
    ensures ContinuesThrough(files, b, c)
    decreases |r|
  {
    if |r| == b - a {
      c := b;
      WholeSlice(r);
    } else {
      var n := |r| - 1;
      var r0 := r[..n];
      ChainPrefix(files, r, r0, b - a);
      PrefixBelow(files[a..b], r, n);
      c := BoundaryIsRun(files, a, b, r0);
      BoundaryStep(files, a, c, r);
      c := c + 1;
    }
  }

  lemma ChainPrefix(files: seq<File>, r: seq<File>, r0: seq<File>, m: nat)
    requires m < |r| && r0 == r[..|r| - 1]
    requires forall i :: m <= i < |r| ==> ChainStep(files, r, i)
    ensures forall i :: m <= i < |r0| ==> ChainStep(files, r0, i)
  {
    forall i | m <= i < |r0|
      ensures ChainStep(files, r0, i)
    {
      assert ChainStep(files, r, i);
      PrefixOfPrefix(r, |r| - 1, i);
    }
  }

  lemma BoundaryStep(files: seq<File>, a: nat, c: nat, r: seq<File>)
    requires ValidFiles(files) && LevelSorted(files) && a < c <= |files|
    requires r != [] && r[..|r| - 1] == files[a..c] && ChainStep(files, r, |r| - 1)
    ensures c < |files| && r == files[a..c + 1] && Continues(files, c)
  {
    var n := |r| - 1;
    RunRange(files, a, c);
    var j :| 0 <= j < |files| && files[j] == r[n];
    NextIsSmallestBoundary(files, c, j);
    SplitLast(r);
    SliceExtend(files, a, c);
  }

  lemma EarlierStartsBefore(files: seq<File>, j: nat, c: nat)
    requires ValidFiles(files) && LevelSorted(files) && j < c <= |files|
    ensures !Less(files[c - 1].largest, files[j].smallest)
  {
    LargestAscends(files);
    WithinBounds(files[c - 1], files[c - 1].entries[0]);
    LessIsTotal(files[c - 1].smallest, files[c - 1].largest, files[j].smallest);
  }

  lemma NextContinues(files: seq<File>, c: nat, j: nat)
    requires ValidFiles(files) && LevelSorted(files) && 0 < c < j < |files|
    requires IsBoundaryFile(files[j], files[c - 1].largest)
    ensures IsBoundaryFile(files[c], files[c - 1].largest) && Less(files[c].smallest, files[j].smallest)
  {
    LargestAscends(files);
    assert Less(files[c - 1].largest, files[c].smallest);
  }

  lemma NextIsSmallestBoundary(files: seq<File>, c: nat, j: nat)
    requires ValidFiles(files) && LevelSorted(files) && 0 < c <= |files| && j < |files|
    requires IsSmallestBoundaryFile(files, files[c - 1].largest, files[j])
    ensures j == c
  {
    if j < c {
      EarlierStartsBefore(files, j, c);
    } else if j > c {
      NextContinues(files, c, j);
    }
  }

  // ---------- coverage ----------

  ghost predicate SubList(a: seq<File>, b: seq<File>) {
    forall f :: f in a ==> f in b
  }

  /** No user key of the range that the files span falls between them. */
  ghost predicate GapFree(files: seq<File>) {
    files != [] ==> Covered(files, LowUser(files), HighUser(files))
  }

  /** The files lie between lo and hi, and nothing between lo and hi is uncovered. */
  ghost predicate CoversRange(files: seq<File>, lo: UserKey, hi: UserKey) {
    && Covered(files, lo, hi)
    && forall f :: f in files ==> lo <= f.smallest.user && f.largest.user <= hi
  }

  lemma CoversRangeGapFree(files: seq<File>, lo: UserKey, hi: UserKey)
    requires CoversRange(files, lo, hi)
    ensures GapFree(files)
  {
    if files != [] {
      var _, _ := RangeIsExact(files);
      forall x: UserKey | LowUser(files) <= x <= HighUser(files)
        ensures CoveredAt(files, x)
      {
        assert lo <= x <= hi;
      }
    }
  }

  lemma GapFreeCoversRange(files: seq<File>)
    requires files != [] && GapFree(files)
    ensures CoversRange(files, LowUser(files), HighUser(files))
  {
    var _, _ := RangeIsExact(files);
    assert forall f :: f in files ==> InRange(f, files);
  }

  lemma CoveredMonotone(a: seq<File>, b: seq<File>, lo: UserKey, hi: UserKey)
    requires SubList(a, b) && Covered(a, lo, hi)
    ensures Covered(b, lo, hi)
  {
    forall x: UserKey | lo <= x <= hi
      ensures CoveredAt(b, x)
    {
      assert CoveredAt(a, x);
    }
  }

  function Min(x: UserKey, y: UserKey): UserKey { if x <= y then x else y }

  function Max(x: UserKey, y: UserKey): UserKey { if x <= y then y else x }

  /** Files that all touch a range they cover span no gap. */
  lemma TouchingFilesCover(files: seq<File>, lo: UserKey, hi: UserKey) returns (lo2: UserKey, hi2: UserKey)
    requires ValidFiles(files) && Covered(files, lo, hi)
    requires forall f :: f in files ==> Overlaps(f, Some(lo), Some(hi))
    ensures CoversRange(files, lo2, hi2) && lo2 <= lo && hi <= hi2
  {
    lo2, hi2 := lo, hi;
    if files != [] {
      var first, last := RangeIsExact(files);
      lo2, hi2 := Min(lo, LowUser(files)), Max(hi, HighUser(files));
      forall x: UserKey | lo2 <= x <= hi2
        ensures CoveredAt(files, x)
      {
        if lo <= x <= hi {
          assert CoveredAt(files, x);
        } else if x < lo {
          assert CoversUserKey(first, x);
        } else {
          assert CoversUserKey(last, x);
        }
      }
      assert forall f :: f in files ==> InRange(f, files);
    }
  }

  /** Files that all touch a covered range extend it without a gap. */
  lemma TouchingFilesExtend(files: seq<File>, more: seq<File>, lo: UserKey, hi: UserKey) returns (lo2: UserKey, hi2: UserKey)
    requires ValidFiles(files) && ValidFiles(more) && CoversRange(files, lo, hi)
    requires forall f :: f in more ==> Overlaps(f, Some(lo), Some(hi))
    ensures CoversRange(files + more, lo2, hi2) && lo2 <= lo && hi <= hi2
  {
    ValidConcat(files, more);
    CoveredMonotone(files, files + more, lo, hi);
    forall f | f in files
      ensures Overlaps(f, Some(lo), Some(hi))
    {
      WithinBounds(f, f.entries[0]);
    }
    lo2, hi2 := TouchingFilesCover(files + more, lo, hi);
  }

  /** Boundary files extend a covered run without a gap. */
  lemma {:induction false} BoundaryFilesExtend(files: seq<File>, others: seq<File>, a: nat, b: nat, c: nat,
                                               lo: UserKey, hi: UserKey)
    returns (lo2: UserKey, hi2: UserKey)
    requires ValidFiles(files) && LevelSorted(files) && ValidFiles(others)
    requires a < b <= c <= |files| && ContinuesThrough(files, b, c)
    requires CoversRange(others + files[a..b], lo, hi)
    ensures CoversRange(others + files[a..c], lo2, hi2) && lo2 <= lo && hi <= hi2
    decreases c
  {
    hide LevelSorted, Covered;
    if b == c {
      lo2, hi2 := lo, hi;
    } else {
      lo2, hi2 := BoundaryFilesExtend(files, others, a, b, c - 1, lo, hi);
      var all := others + files[a..c - 1];
      SliceExtend(files, a, c - 1);
      var f := files[c - 1];
      assert files[a..c - 1][c - 2 - a] == files[c - 2];
      assert files[c - 2] in all;
      WithinBounds(f, f.entries[0]);
      WithinBounds(files[c - 2], files[c - 2].entries[0]);
      assert lo2 <= files[c - 2].smallest.user;
      ValidConcat(others, files[a..c - 1]);
      lo2, hi2 := TouchingFilesExtend(all, [f], lo2, hi2);
      assert all + [f] == others + files[a..c];
    }
  }

  lemma ValidConcat(a: seq<File>, b: seq<File>)
    requires ValidFiles(a) && ValidFiles(b)
    ensures ValidFiles(a + b)
  {
  }

  // ---------- the choice ----------

  /** Level 0: with a file comes every file that its range, or the range so far, touches. */
  ghost predicate HullClosed(files: seq<File>, inputs: seq<File>) {
    && inputs != []
    && SubList(inputs, files)
    && InLevelOrder(files, inputs)
    && forall f :: f in files && Overlaps(f, Some(LowUser(inputs)), Some(HighUser(inputs))) ==> f in inputs
  }

  /** Each file at most once, and in the order of the level. */
  ghost predicate InLevelOrder(files: seq<File>, inputs: seq<File>) {
    exists lo, hi :: inputs == OverlapFilter(files, lo, hi)
  }

  /** Levels above 0: neighbours that stop at the end of a user key. */
  ghost predicate IsClosedRun(files: seq<File>, inputs: seq<File>) {
    exists a: nat, b: nat :: IsRun(files, a, b, inputs) && EndsUserKey(files, b)
  }

  ghost predicate IsSomeRun(files: seq<File>, inputs: seq<File>) {
    exists a: nat, b: nat :: IsRun(files, a, b, inputs)
  }

  ghost predicate Pickable(level: nat, files: seq<File>, inputs: seq<File>) {
    if level == 0 then HullClosed(files, inputs) else IsSomeRun(files, inputs)
  }

  ghost predicate UpperClosed(level: nat, files: seq<File>, inputs: seq<File>) {
    if level == 0 then HullClosed(files, inputs) else IsClosedRun(files, inputs)
  }

  /** What GetOverlappingInputs returns: all files that overlap a range, which in level 0 is
      the least range around the given one that cuts through no file. */
  ghost predicate IsOverlap(level: nat, files: seq<File>, begin: Option<UserKey>, end: Option<UserKey>, r: seq<File>) {
    if level > 0 then r == OverlapFilter(files, begin, end)
    else exists lo, hi :: LeastClosure(files, begin, end, lo, hi) && r == OverlapFilter(files, lo, hi)
  }

  /** The neighbours `inputs` and those after them, up to the end of the last user key. */
  ghost predicate IsRunToKeyEnd(files: seq<File>, inputs: seq<File>, r: seq<File>) {
    exists a: nat, b: nat, c: nat ::
      IsRun(files, a, b, inputs) && IsRun(files, a, c, r) && b <= c && ContinuesThrough(files, b, c) && EndsUserKey(files, c)
  }

  ghost predicate IsClosed(level: nat, files: seq<File>, inputs: seq<File>, r: seq<File>) {
    if level == 0 then r == inputs else IsRunToKeyEnd(files, inputs, r)
  }

  /** The larger upper choice: what overlaps the range of all inputs, closed. */
  ghost predicate IsWider(level: nat, files: seq<File>, all: seq<File>, w: seq<File>)
    requires all != []
  {
    exists inputs ::
      IsOverlap(level, files, Some(LowUser(all)), Some(HighUser(all)), inputs) && IsClosed(level, files, inputs, w)
  }

  /** There is one least closure only. */
  lemma LeastClosureIsUnique(files: seq<File>, begin: Option<UserKey>, end: Option<UserKey>, lo: Option<UserKey>,
                             hi: Option<UserKey>, lo2: Option<UserKey>, hi2: Option<UserKey>)
    requires LeastClosure(files, begin, end, lo, hi) && LeastClosure(files, begin, end, lo2, hi2)
    requires begin.Some? && end.Some?
    ensures lo == lo2 && hi == hi2
  {
    assert Includes(lo, hi, lo2, hi2) && Includes(lo2, hi2, lo, hi);
  }

  lemma OverlapIsUnique(level: nat, files: seq<File>, lo: UserKey, hi: UserKey, r: seq<File>, s: seq<File>)
    requires IsOverlap(level, files, Some(lo), Some(hi), r) && IsOverlap(level, files, Some(lo), Some(hi), s)
    ensures r == s
  {
    hide LeastClosure;
    if level == 0 {
      var lo1, hi1 :| LeastClosure(files, Some(lo), Some(hi), lo1, hi1) && r == OverlapFilter(files, lo1, hi1);
      var lo2, hi2 :| LeastClosure(files, Some(lo), Some(hi), lo2, hi2) && s == OverlapFilter(files, lo2, hi2);
      LeastClosureIsUnique(files, Some(lo), Some(hi), lo1, hi1, lo2, hi2);
    }
  }

  lemma {:induction false} KeyEndIsUnique(files: seq<File>, b: nat, c: nat, d: nat)
    requires b <= c <= d && ContinuesThrough(files, b, d) && EndsUserKey(files, c)
    ensures c == d
    decreases d
  {
    if c < d {
      if c < d - 1 {
        KeyEndIsUnique(files, b, c, d - 1);
      }
    }
  }

  lemma RunsAreEqual(files: seq<File>, a: nat, b: nat, a2: nat, b2: nat, r: seq<File>)
    requires ValidFiles(files) && LevelSorted(files)
    requires IsRun(files, a, b, r) && IsRun(files, a2, b2, r)
    ensures a == a2 && b == b2
  {
    assert files[a] == r[0] == files[a2];
    SameFileSameIndex(files, a, a2);
  }

  lemma ClosedIsUnique(level: nat, files: seq<File>, inputs: seq<File>, r: seq<File>, s: seq<File>)
    requires ValidFiles(files) && (level > 0 ==> LevelSorted(files))
    requires IsClosed(level, files, inputs, r) && IsClosed(level, files, inputs, s)
    ensures r == s
  {
    if level > 0 {
      var a: nat, b: nat, c: nat :|
        IsRun(files, a, b, inputs) && IsRun(files, a, c, r) && b <= c && ContinuesThrough(files, b, c) && EndsUserKey(files, c);
      var a2: nat, b2: nat, c2: nat :| IsRun(files, a2, b2, inputs) && IsRun(files, a2, c2, s) && b2 <= c2 &&
        ContinuesThrough(files, b2, c2) && EndsUserKey(files, c2);
      RunsAreEqual(files, a, b, a2, b2, inputs);
      if c <= c2 {
        KeyEndIsUnique(files, b, c, c2);
      } else {
        KeyEndIsUnique(files, b, c2, c);
      }
    }
  }

  /** There is one larger upper choice only. */
  lemma WiderIsUnique(level: nat, files: seq<File>, all: seq<File>, w: seq<File>, x: seq<File>)
    requires ValidFiles(files) && (level > 0 ==> LevelSorted(files)) && all != []
    requires IsWider(level, files, all, w) && IsWider(level, files, all, x)
    ensures w == x
  {
    var lo, hi := LowUser(all), HighUser(all);
    var i: seq<File> :| IsOverlap(level, files, Some(lo), Some(hi), i) && IsClosed(level, files, i, w);
    var j: seq<File> :| IsOverlap(level, files, Some(lo), Some(hi), j) && IsClosed(level, files, j, x);
    hide IsOverlap, IsClosed;
    OverlapIsUnique(level, files, lo, hi, i, j);
    ClosedIsUnique(level, files, i, w, x);
  }

  /** The conditions under which the larger upper choice is taken. */
  ghost predicate Grows(lower: seq<File>, upper: seq<File>, in1: seq<File>, w: seq<File>, expandedLimit: nat)
    requires w != []
  {
    && |w| > |upper|
    && TotalFileSize(in1) + TotalFileSize(w) < expandedLimit
    && in1 == OverlapFilter(lower, Some(LowUser(w)), Some(HighUser(w)))
  }

  /** What SetupOtherInputs makes of the picked files: they are closed; the lower inputs are
      the files that overlap them; and the larger choice is taken exactly if it has more files,
      stays below the limit and overlaps the same lower files. */
  ghost predicate IsChoice(v: Version, picked: seq<File>, expandedLimit: nat, c: Inputs)
    requires c.level + 1 < NUM_LEVELS
  {
    exists before, w :: IsChoiceBy(v, picked, expandedLimit, c, before, w)
  }

  ghost predicate IsChoiceBy(v: Version, picked: seq<File>, expandedLimit: nat, c: Inputs, before: seq<File>,
                             w: seq<File>)
    requires c.level + 1 < NUM_LEVELS
  {
    && IsClosed(c.level, v[c.level], picked, before) && before != []
    && c.lower == OverlapFilter(v[c.level + 1], Some(LowUser(before)), Some(HighUser(before)))
    && (c.lower == [] ==> c.upper == before)
    && (c.lower != [] ==>
      && IsWider(c.level, v[c.level], before + c.lower, w) && w != []
      && c.upper == if Grows(v[c.level + 1], before, c.lower, w, expandedLimit) then w else before)
  }

  /** AddBoundaryInputs as SetupOtherInputs uses it: it closes the choice, and it leaves a
      choice from level 0 alone. */
  method CloseUpper(level: nat, files: seq<File>, inputs: seq<File>, ghost others: seq<File>,
                    ghost lo: UserKey, ghost hi: UserKey)
    returns (r: seq<File>, ghost lo2: UserKey, ghost hi2: UserKey)
    requires ValidFiles(files) && ValidFiles(others) && (level > 0 ==> LevelSorted(files))
    requires Pickable(level, files, inputs)
    ensures UpperClosed(level, files, r) && inputs <= r && SubList(r, files)
    ensures IsClosed(level, files, inputs, r)
    ensures CoversRange(others + inputs, lo, hi) ==> CoversRange(others + r, lo2, hi2)
  {
    r := AddBoundaryInputs(files, inputs);
    lo2, hi2 := lo, hi;
    if level == 0 {
      Level0HasNoBoundary(files, inputs, r);
    } else {
      ghost var a: nat, b: nat :| IsRun(files, a, b, inputs);
      ghost var c := BoundaryIsRun(files, a, b, r);
      RunRange(files, a, c);
      RunEnds(files, a, c);
      assert IsRun(files, a, c, r);
      if CoversRange(others + inputs, lo, hi) {
        lo2, hi2 := BoundaryFilesExtend(files, others, a, b, c, lo, hi);
      }
    }
  }

  lemma RunEnds(files: seq<File>, a: nat, c: nat)
    requires ValidFiles(files) && LevelSorted(files) && a < c <= |files|
    requires forall f :: f in files ==> !IsBoundaryFile(f, files[c - 1].largest)
    ensures EndsUserKey(files, c)
  {
    if c < |files| {
      assert files[c] in files;
      assert Less(files[c - 1].largest, files[c].smallest);
    }
  }

  lemma Level0HasNoBoundary(files: seq<File>, inputs: seq<File>, r: seq<File>)
    requires ValidFiles(files) && HullClosed(files, inputs) && inputs <= r
    requires forall i :: |inputs| <= i < |r| ==> ChainStep(files, r, i)
    ensures r == inputs
  {
    if |r| > |inputs| {
      var n := |inputs|;
      assert ChainStep(files, r, n);
      assert r[..n] == inputs;
      var f := r[n];
      WithinBounds(f, f.entries[0]);
      SubListValid(inputs, files);
      RangeOrdered(inputs);
      var _, _ := RangeIsExact(inputs);
      assert Overlaps(f, Some(LowUser(inputs)), Some(HighUser(inputs)));
      assert InRange(f, inputs);
      LessIsTotal(f.smallest, f.largest, LargestKey(inputs));
    }
  }

  /** Widening the range can only add files; if it adds none, the list is the same. */
  lemma {:induction false} FilterMonotone(files: seq<File>, lo: Option<UserKey>, hi: Option<UserKey>,
                                          lo2: Option<UserKey>, hi2: Option<UserKey>)
    requires Includes(lo2, hi2, lo, hi)
    ensures |OverlapFilter(files, lo, hi)| <= |OverlapFilter(files, lo2, hi2)|
    ensures |OverlapFilter(files, lo, hi)| == |OverlapFilter(files, lo2, hi2)| ==>
      OverlapFilter(files, lo, hi) == OverlapFilter(files, lo2, hi2)
  {
    if files != [] {
      FilterMonotone(files[..|files| - 1], lo, hi, lo2, hi2);
    }
  }

  /** The files of a compaction of `level` into `level + 1`. */
  datatype Inputs = Inputs(level: nat, upper: seq<File>, lower: seq<File>) {
    function All(): seq<File> { upper + lower }
  }

  /** The files two levels down that overlap the inputs. */
  function Grandparents(v: Version, c: Inputs): seq<File>
    requires c.All() != []
  {
    if c.level + 2 < NUM_LEVELS then
      OverlapFilter(v[c.level + 2], Some(LowUser(c.All())), Some(HighUser(c.All())))
    else []
  }

  /** What every compaction starts from: the upper files are closed, and the lower files
      are all those of the next level that overlap the user keys of the upper ones. */
  ghost predicate ValidInputs(v: Version, c: Inputs) {
    && c.level + 1 < NUM_LEVELS
    && c.upper != []
    && SubList(c.upper, v[c.level])
    && UpperClosed(c.level, v[c.level], c.upper)
    && c.lower == OverlapFilter(v[c.level + 1], Some(LowUser(c.upper)), Some(HighUser(c.upper)))
  }

  lemma RangeOrdered(files: seq<File>)
    requires ValidFiles(files) && files != []
    ensures LowUser(files) <= HighUser(files)
    ensures forall f :: f in files ==> Overlaps(f, Some(LowUser(files)), Some(HighUser(files)))
  {
    var _, _ := RangeIsExact(files);
    forall f | f in files
      ensures LowUser(files) <= HighUser(files) && Overlaps(f, Some(LowUser(files)), Some(HighUser(files)))
    {
      assert InRange(f, files);
      WithinBounds(f, f.entries[0]);
    }
    assert files[0] in files;
  }

  /** SetupOtherInputs: boundary files, then the overlapping files of the next level, then
      as many more files of the upper level as come for free. */
  method SetupOtherInputs(v: Version, level: nat, picked: seq<File>, expandedLimit: nat)
    returns (c: Inputs, largest: InternalKey, grandparents: seq<File>)
    requires ValidVersion(v) && level + 1 < NUM_LEVELS && Pickable(level, v[level], picked)
    ensures c.level == level && ValidInputs(v, c) && IsChoice(v, picked, expandedLimit, c)
    ensures SubList(picked, c.upper)
    ensures largest == LargestKey(c.upper)
    ensures GapFree(picked) ==> GapFree(c.All())
    ensures c.All() != [] && grandparents == Grandparents(v, c)
  {
    hide GapFree, ValidVersion, UpperClosed, Pickable, IsWider, IsClosed, Grows;
    var upper, lower;
    upper, lower := FirstInputs(v, level, picked);
    ghost var before, w := upper, upper;
    if lower != [] {
      var expanded0, accepted := ExpandUpper(v, level, upper, lower, expandedLimit, GapFree(picked));
      w := expanded0;
      if accepted {
        upper := expanded0;
      }
    }
    c := Inputs(level, upper, lower);
    assert IsChoiceBy(v, picked, expandedLimit, c, before, w);
    var smallest;
    smallest, largest := GetRange(upper);
    grandparents := [];
    if level + 2 < NUM_LEVELS {
      var allStart, allLimit := GetRange(upper + lower);
      var g, _, _ := GetOverlappingInputs(level + 2, v[level + 2], Some(allStart.user), Some(allLimit.user), []);
      grandparents := g;
    }
  }

  /** One choice only. */
  lemma ChoiceIsUnique(v: Version, picked: seq<File>, expandedLimit: nat, c: Inputs, d: Inputs)
    requires ValidVersion(v) && c.level + 1 < NUM_LEVELS && d.level == c.level
    requires IsChoice(v, picked, expandedLimit, c) && IsChoice(v, picked, expandedLimit, d)
    ensures c == d
  {
    hide IsWider, IsClosed, Grows;
    var before, w :| IsChoiceBy(v, picked, expandedLimit, c, before, w);
    var before2, w2 :| IsChoiceBy(v, picked, expandedLimit, d, before2, w2);
    ClosedIsUnique(c.level, v[c.level], picked, before, before2);
    if c.lower != [] {
      WiderIsUnique(c.level, v[c.level], before + c.lower, w, w2);
    }
  }

  /** The upper files closed over boundary files, and the lower files they overlap. */
  method FirstInputs(v: Version, level: nat, picked: seq<File>) returns (upper: seq<File>, lower: seq<File>)
    requires ValidVersion(v) && level + 1 < NUM_LEVELS && Pickable(level, v[level], picked)
    ensures ValidInputs(v, Inputs(level, upper, lower)) && IsClosed(level, v[level], picked, upper)
    ensures picked <= upper
    ensures GapFree(picked) ==> GapFree(upper + lower)
  {
    PickableIsSubList(level, v[level], picked);
    ghost var lo, hi;
    EmptyConcat(picked);
    upper, lo, hi := CloseUpper(level, v[level], picked, [], LowUser(picked), HighUser(picked));
    EmptyConcat(upper);
    SubListValid(upper, v[level]);
    var smallest, largest := GetRange(upper);
    var l, _, _ := GetOverlappingInputs(level + 1, v[level + 1], Some(smallest.user), Some(largest.user), []);
    lower := l;
    InputsAreValid(v, level, upper, lower);
    if GapFree(picked) {
      GapFreeCoversRange(picked);
      SubListValid(lower, v[level + 1]);
      LowerTouches(upper, lower, lo, hi);
    }
  }

  lemma LowerTouches(upper: seq<File>, lower: seq<File>, lo: UserKey, hi: UserKey)
    requires ValidFiles(upper) && ValidFiles(lower) && upper != []
    requires CoversRange(upper, lo, hi)
    requires forall f :: f in lower ==> Overlaps(f, Some(LowUser(upper)), Some(HighUser(upper)))
    ensures GapFree(upper + lower)
  {
    CoversRangeGapFree(upper, lo, hi);
    GapFreeCoversRange(upper);
    var l2, h2 := TouchingFilesExtend(upper, lower, LowUser(upper), HighUser(upper));
    CoversRangeGapFree(upper + lower, l2, h2);
  }

  lemma PickableIsSubList(level: nat, files: seq<File>, picked: seq<File>)
    requires Pickable(level, files, picked)
    ensures picked != [] && SubList(picked, files)
  {
  }

  lemma SubListValid(a: seq<File>, b: seq<File>)
    requires SubList(a, b) && ValidFiles(b)
    ensures ValidFiles(a)
  {
    forall i | 0 <= i < |a|
      ensures ValidFile(a[i])
    {
      assert a[i] in b;
    }
  }

  /** The attempt to take more files of the upper level. */
  method ExpandUpper(v: Version, level: nat, upper: seq<File>, in1: seq<File>, expandedLimit: nat, ghost p: bool)
    returns (expanded0: seq<File>, accepted: bool)
    requires ValidVersion(v) && level + 1 < NUM_LEVELS
    requires ValidInputs(v, Inputs(level, upper, in1)) && in1 != []
    requires p ==> GapFree(upper + in1)
    ensures IsWider(level, v[level], upper + in1, expanded0) && SubList(upper, expanded0) && expanded0 != []
    ensures accepted <==> Grows(v[level + 1], upper, in1, expanded0, expandedLimit)
    ensures accepted ==> ValidInputs(v, Inputs(level, expanded0, in1))
    ensures accepted && p ==> GapFree(expanded0 + in1)
  {
    hide LeastClosure, UpperClosed, Pickable, GapFree, IsClosed;
    var files, lower := v[level], v[level + 1];
    var all := upper + in1;
    SubListValid(upper, files);
    SubListValid(in1, lower);
    ValidConcat(upper, in1);
    var allStart, allLimit := GetRange(all);
    RangeOrdered(all);
    var wide, lo, hi := GetOverlappingInputs(level, files, Some(allStart.user), Some(allLimit.user), all);
    accepted := false;
    WideIsPickable(level, files, upper, all, wide, lo, hi);
    assert IsOverlap(level, files, Some(LowUser(all)), Some(HighUser(all)), wide);
    hide IsOverlap;
    ghost var l2, h2 := lo.value, hi.value;
    if p {
      l2, h2 := WideCovers(files, all, wide, lo.value, hi.value);
    }
    expanded0, l2, h2 := CloseUpper(level, files, wide, all, l2, h2);
    PrefixSubList(wide, expanded0);
    assert upper[0] in wide;
    SubListValid(expanded0, files);
    if |expanded0| > |upper| && TotalFileSize(in1) + TotalFileSize(expanded0) < expandedLimit {
      var newStart, newLimit := GetRange(expanded0);
      var expanded1, _, _ := GetOverlappingInputs(level + 1, lower, Some(newStart.user), Some(newLimit.user), []);
      if |expanded1| == |in1| {
        accepted := true;
        SameLower(lower, upper, expanded0, in1, expanded1);
        InputsAreValid(v, level, expanded0, in1);
        if p {
          SameCover(all, upper, in1, expanded0, l2, h2);
        }
      }
    }
  }

  lemma InputsAreValid(v: Version, level: nat, upper: seq<File>, lower: seq<File>)
    requires level + 1 < NUM_LEVELS && upper != [] && SubList(upper, v[level])
    requires UpperClosed(level, v[level], upper)
    requires lower == OverlapFilter(v[level + 1], Some(LowUser(upper)), Some(HighUser(upper)))
    ensures ValidInputs(v, Inputs(level, upper, lower))
  {
  }

  lemma PrefixSubList(a: seq<File>, b: seq<File>)
    requires a <= b
    ensures SubList(a, b)
  {
  }

  /** The larger upper choice overlaps the same lower files. */
  lemma SameLower(lower: seq<File>, upper: seq<File>, expanded0: seq<File>, in1: seq<File>, expanded1: seq<File>)
    requires upper != [] && expanded0 != [] && SubList(upper, expanded0)
    requires in1 == OverlapFilter(lower, Some(LowUser(upper)), Some(HighUser(upper)))
    requires expanded1 == OverlapFilter(lower, Some(LowUser(expanded0)), Some(HighUser(expanded0)))
    requires |in1| == |expanded1|
    ensures in1 == expanded1
  {
    WiderRange(upper, expanded0);
    FilterMonotone(lower, Some(LowUser(upper)), Some(HighUser(upper)), Some(LowUser(expanded0)), Some(HighUser(expanded0)));
  }

  lemma WideIsPickable(level: nat, files: seq<File>, upper: seq<File>, all: seq<File>, wide: seq<File>,
                       lo: Option<UserKey>, hi: Option<UserKey>)
    requires ValidFiles(files) && (level > 0 ==> LevelSorted(files))
    requires ValidFiles(all) && SubList(upper, all) && SubList(upper, files) && upper != []
    requires all != [] && wide == OverlapFilter(files, lo, hi) && lo.Some? && hi.Some?
    requires level > 0 ==> lo == Some(LowUser(all)) && hi == Some(HighUser(all))
    requires level == 0 ==> LeastClosure(files, Some(LowUser(all)), Some(HighUser(all)), lo, hi)
    ensures Pickable(level, files, wide) && SubList(upper, wide)
  {
    RangeOrdered(all);
    forall f | f in upper
      ensures f in wide
    {
      assert Overlaps(f, Some(LowUser(all)), Some(HighUser(all)));
    }
    assert upper[0] in wide;
    if level == 0 {
      var f, g := RangeIsExact(wide);
      assert Within(f, lo, hi) && Within(g, lo, hi);
    } else {
      var a, b := FilterIsRun(files, lo, hi);
      assert IsRun(files, a, b, wide);
    }
  }

  lemma WideCovers(files: seq<File>, all: seq<File>, wide: seq<File>, lo: UserKey, hi: UserKey)
    returns (l2: UserKey, h2: UserKey)
    requires ValidFiles(files) && ValidFiles(all)
    requires wide == OverlapFilter(files, Some(lo), Some(hi))
    requires all != [] && GapFree(all) && lo <= LowUser(all) && HighUser(all) <= hi
    requires Covered(all + files, LowUser(all), HighUser(all)) ==> Covered(all + files, lo, hi)
    ensures CoversRange(all + wide, l2, h2)
  {
    GapFreeCoversRange(all);
    CoveredMonotone(all, all + files, LowUser(all), HighUser(all));
    forall x: UserKey | lo <= x <= hi
      ensures CoveredAt(all + wide, x)
    {
      assert CoveredAt(all + files, x);
      var f :| f in all + files && CoversUserKey(f, x);
      assert f in all + wide;
    }
    SubListValid(wide, files);
    ValidConcat(all, wide);
    RangeOrdered(all);
    l2, h2 := TouchingFilesCover(all + wide, lo, hi);
  }

  lemma WiderRange(a: seq<File>, b: seq<File>)
    requires a != [] && b != [] && SubList(a, b)
    ensures LowUser(b) <= LowUser(a) && HighUser(a) <= HighUser(b)
  {
    var f, g := RangeIsExact(a);
    var _, _ := RangeIsExact(b);
    assert InRange(f, b) && InRange(g, b);
  }

  lemma SameCover(all: seq<File>, upper: seq<File>, in1: seq<File>, expanded0: seq<File>, lo: UserKey, hi: UserKey)
    requires all == upper + in1 && SubList(upper, expanded0)
    requires CoversRange(all + expanded0, lo, hi)
    ensures GapFree(expanded0 + in1)
  {
    CoveredMonotone(all + expanded0, expanded0 + in1, lo, hi);
    CoversRangeGapFree(expanded0 + in1, lo, hi);
  }
}
