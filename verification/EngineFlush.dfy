/** Flushing a memtable keeps the invariant, also while a compaction is running. */
module EngineFlush {
  import opened Wrappers
  import opened DbFormat
  import opened MultiVersionMap
  import opened Tables
  import opened Versions
  import opened KeyRanges
  import opened VersionEdits
  import opened MemTableOutput
  import opened CompactionInputs
  import opened Engine

  /** v2 is v with one more file in one level. */
  ghost predicate OneMoreFile(v: Version, level: nat, f: File, v2: Version) {
    && level < NUM_LEVELS
    && (forall l :: 0 <= l < NUM_LEVELS && l != level ==> v2[l] == v[l])
    && FilesSorted(v2[level])
    && forall g :: g in v2[level] <==> g in v[level] || g == f
  }

  lemma FlushInstalls(v: Version, level: nat, f: File, v2: Version)
    requires VersionOk(v) && level < NUM_LEVELS && !NumberInUse(v, f.number)
    requires Installed(v, VersionEdit({}, [(level, f)]), v2)
    ensures OneMoreFile(v, level, f, v2)
  {
    var e := VersionEdit({}, [(level, f)]);
    forall l | 0 <= l < NUM_LEVELS
      ensures FilesSorted(v2[l])
      ensures forall g :: g in v2[l] <==> g in v[l] || (l == level && g == f)
    {
      EditMembers(v[l], e, l, v2[l]);
    }
    forall l | 0 <= l < NUM_LEVELS && l != level
      ensures v2[l] == v[l]
    {
      SortedListUnique(v2[l], v[l]);
    }
  }

  lemma DistinctByMembers(files: seq<File>)
    requires FilesSorted(files)
    requires forall f, g :: f in files && g in files && f.number == g.number ==> f == g
    ensures DistinctNumbers(files)
  {
    forall i, j | 0 <= i < j < |files|
      ensures files[i].number != files[j].number
    {
      assert BySmallest(files[i], files[j]);
    }
  }

  lemma NumbersIdentify(files: seq<File>, f: File, g: File)
    requires DistinctNumbers(files) && f in files && g in files && f.number == g.number
    ensures f == g
  {
  }

  ghost predicate NoSharedUser(a: set<Entry>, b: set<Entry>) {
    forall x, y :: x in a && y in b ==> x.key.user != y.key.user
  }

  lemma NoOverlapNoSharedUser(f: File, g: File)
    requires ValidFile(f) && ValidFile(g)
    requires !Overlaps(g, Some(f.smallest.user), Some(f.largest.user))
    ensures NoSharedUser(ToSet(g.entries), ToSet(f.entries))
    ensures Less(f.largest, g.smallest) || Less(g.largest, f.smallest)
  {
    forall x, y | x in g.entries && y in f.entries
      ensures x.key.user != y.key.user
    {
      WithinBounds(g, x);
      WithinBounds(f, y);
    }
  }

  lemma LevelNoSharedUser(files: seq<File>, f: File)
    requires ValidFiles(files) && ValidFile(f)
    requires !SomeOverlap(files, Some(f.smallest.user), Some(f.largest.user))
    ensures NoSharedUser(LevelEntries(files), ToSet(f.entries))
  {
    forall g | g in files
      ensures NoSharedUser(ToSet(g.entries), ToSet(f.entries))
    {
      NoOverlapNoSharedUser(f, g);
    }
    forall x, y | x in LevelEntries(files) && y in ToSet(f.entries)
      ensures x.key.user != y.key.user
    {
      var g :| g in files && x in g.entries;
      assert x in ToSet(g.entries);
    }
  }

  lemma FlushVersionOk(v: Version, level: nat, f: File, v2: Version)
    requires VersionOk(v) && OneMoreFile(v, level, f, v2) && ValidFile(f) && !NumberInUse(v, f.number)
    requires level > 0 ==> forall l :: 0 <= l <= level ==> !OverlapInLevel(v, l, f.smallest.user, f.largest.user)
    ensures VersionOk(v2)
  {
    var files := v2[level];
    forall i | 0 <= i < |files|
      ensures ValidFile(files[i])
    {
      assert files[i] in files;
    }
    forall g, h | g in files && h in files && g.number == h.number
      ensures g == h
    {
      if g in v[level] && h in v[level] {
        NumbersIdentify(v[level], g, h);
      }
    }
    DistinctByMembers(files);
    if level > 0 {
      assert !OverlapInLevel(v, level, f.smallest.user, f.largest.user);
      LevelSortedDisjoint(v[level]);
      forall g, h | g in files && h in files && g != h
        ensures Less(g.largest, h.smallest) || Less(h.largest, g.smallest)
      {
        if g == f {
          NoOverlapNoSharedUser(f, h);
        } else if h == f {
          NoOverlapNoSharedUser(f, g);
        }
      }
      DisjointLevelSorted(files);
    }
    assert forall l :: 0 <= l < NUM_LEVELS && l != level ==> v2[l] == v[l];
  }

  lemma FlushEntries(v: Version, level: nat, f: File, v2: Version)
    requires OneMoreFile(v, level, f, v2)
    ensures forall l :: 0 <= l < NUM_LEVELS && l != level ==> LevelEntries(v2[l]) == LevelEntries(v[l])
    ensures LevelEntries(v2[level]) == LevelEntries(v[level]) + ToSet(f.entries)
    ensures VersionEntries(v2) == VersionEntries(v) + ToSet(f.entries)
  {
    assert LevelEntries(v2[level]) == LevelEntries(v[level]) + ToSet(f.entries);
    forall e
      ensures e in VersionEntries(v2) <==> e in VersionEntries(v) || e in f.entries
    {
      if e in f.entries {
        assert e in LevelEntries(v2[level]);
      }
      if e in VersionEntries(v) {
        var l :| 0 <= l < NUM_LEVELS && e in LevelEntries(v[l]);
        assert e in LevelEntries(v2[l]);
      }
    }
  }

  lemma FlushReadOrder(v: Version, level: nat, f: File, v2: Version)
    requires VersionOk(v) && ReadOrder(v) && OneMoreFile(v, level, f, v2) && ValidFile(f)
    requires NumbersBelow(v, f.number) && Above(ToSet(f.entries), VersionEntries(v))
    requires level > 0 ==> forall l :: 0 <= l <= level ==> !OverlapInLevel(v, l, f.smallest.user, f.largest.user)
    ensures ReadOrder(v2)
  {
    FlushEntries(v, level, f, v2);
    LevelEntriesBelow(v);
    forall l, m | 0 <= l < m < NUM_LEVELS
      ensures Above(LevelEntries(v2[l]), LevelEntries(v2[m]))
    {
      FlushPairOrder(v, level, f, v2, l, m);
    }
    if level == 0 {
      FlushLevel0Order(v, f, v2);
    }
  }

  lemma LevelEntriesBelow(v: Version)
    ensures forall l :: 0 <= l < NUM_LEVELS ==> LevelEntries(v[l]) <= VersionEntries(v)
  {
  }

  lemma FlushPairOrder(v: Version, level: nat, f: File, v2: Version, l: nat, m: nat)
    requires VersionOk(v) && ReadOrder(v) && OneMoreFile(v, level, f, v2) && ValidFile(f) && l < m < NUM_LEVELS
    requires Above(ToSet(f.entries), VersionEntries(v))
    requires level > 0 ==> forall k :: 0 <= k <= level ==> !OverlapInLevel(v, k, f.smallest.user, f.largest.user)
    ensures Above(LevelEntries(v2[l]), LevelEntries(v2[m]))
  {
    FlushEntries(v, level, f, v2);
    assert Above(LevelEntries(v[l]), LevelEntries(v[m]));
    if m == level {
      assert !OverlapInLevel(v, l, f.smallest.user, f.largest.user);
      LevelNoSharedUser(v[l], f);
    } else if l == level {
      LevelEntriesBelow(v);
    }
  }

  lemma FlushLevel0Order(v: Version, f: File, v2: Version)
    requires ReadOrder(v) && OneMoreFile(v, 0, f, v2) && NumbersBelow(v, f.number)
    requires Above(ToSet(f.entries), VersionEntries(v))
    ensures NewestNumberAbove(v2[0])
  {
    forall g, h | g in v2[0] && h in v2[0] && g.number > h.number
      ensures Above(ToSet(g.entries), ToSet(h.entries))
    {
      if g == f {
        forall e | e in h.entries
          ensures e in VersionEntries(v)
        {
          assert e in LevelEntries(v[0]);
        }
      }
    }
  }

  /** Entries that the compaction reads are stored in its files. */
  lemma InputsAreStored(v: Version, c: Inputs, e: Entry)
    requires c.level + 1 < NUM_LEVELS && SubList(c.upper, v[c.level]) && SubList(c.lower, v[c.level + 1])
    requires e in LevelEntries(c.All())
    ensures e in VersionEntries(v)
    ensures e in LevelEntries(v[c.level]) || e in LevelEntries(v[c.level + 1])
  {
    var f :| f in c.All() && e in f.entries;
    if f in c.upper {
      assert e in LevelEntries(v[c.level]);
    } else {
      assert e in LevelEntries(v[c.level + 1]);
    }
  }

  lemma FileInHullMeetsInput(all: seq<File>, f: File) returns (g: File)
    requires all != [] && GapFree(all)
    requires f.smallest.user <= f.largest.user && LowUser(all) <= HighUser(all)
    requires f.smallest.user <= HighUser(all) && LowUser(all) <= f.largest.user
    ensures g in all && Overlaps(g, Some(f.smallest.user), Some(f.largest.user))
  {
    var x := Max(f.smallest.user, LowUser(all));
    assert CoveredAt(all, x);
    g :| g in all && CoversUserKey(g, x);
  }

  /** A file that overlaps no input of a gap-free compaction lies on one side of all. */
  lemma OutsideTheHull(c: Inputs, f: File)
    requires ValidFiles(c.All()) && c.All() != [] && ValidFile(f) && GapFree(c.All())
    requires forall g :: g in c.All() ==> !Overlaps(g, Some(f.smallest.user), Some(f.largest.user))
    ensures Apart(f, LevelEntries(c.All()))
  {
    var all := c.All();
    RangeOrdered(all);
    var first, last := RangeIsExact(all);
    WithinBounds(f, f.entries[0]);
    if f.smallest.user <= HighUser(all) && LowUser(all) <= f.largest.user {
      var g := FileInHullMeetsInput(all, f);
    }
    assert f.largest.user < LowUser(all) || HighUser(all) < f.smallest.user;
    forall e | e in LevelEntries(all)
      ensures LowUser(all) <= e.key.user <= HighUser(all)
    {
      var g :| g in all && e in g.entries;
      assert InRange(g, all);
      WithinBounds(g, e);
    }
  }

  lemma FlushKeepsJob(v: Version, level: nat, f: File, v2: Version, j: Job)
    requires JobOk(v, j) && OneMoreFile(v, level, f, v2)
    requires Above(ToSet(f.entries), VersionEntries(v))
    ensures JobOk(v2, j)
    ensures JobReadsOk(v, j) ==> JobReadsOk(v2, j)
  {
    var c := j.inputs;
    AboveInputs(v, c, f);
    FlushUpper(v, level, f, v2, c);
    FlushLower(v, level, f, v2, c);
    FlushDeeper(v, level, f, v2, j);
  }

  /** A flush keeps the files that a compaction leaves beside all that it reads, if and only
      if the new file lies so itself, or goes to another level. */
  lemma FlushKeepsApartIff(v: Version, level: nat, f: File, v2: Version, c: Inputs)
    requires LowerApart(v, c) && OneMoreFile(v, level, f, v2) && f !in v[level]
    ensures LowerApart(v2, c) <==> (level == c.level + 1 ==> Apart(f, LevelEntries(c.All())))
  {
    if level == c.level + 1 {
      assert f in v2[level] && f !in c.lower;
    }
  }

  /** If the inputs leave no gap the file cannot lie otherwise: PickLevelForMemTableOutput
      gave it a level where it overlaps nothing. */
  lemma GapFreeKeepsApart(v: Version, level: nat, f: File, c: Inputs)
    requires VersionOk(v) && UpperApart(v, c) && LowerThere(v, c) && ValidFile(f) && level == c.level + 1
    requires forall l :: 0 <= l <= level ==> !OverlapInLevel(v, l, f.smallest.user, f.largest.user)
    requires GapFree(c.All())
    ensures Apart(f, LevelEntries(c.All()))
  {
    InputsAvoidFlushed(v, level, f, c);
    if c.All() != [] {
      OutsideTheHull(c, f);
    }
  }

  lemma AboveInputs(v: Version, c: Inputs, f: File)
    requires c.level + 1 < NUM_LEVELS && SubList(c.upper, v[c.level]) && SubList(c.lower, v[c.level + 1])
    requires Above(ToSet(f.entries), VersionEntries(v))
    ensures Above(ToSet(f.entries), LevelEntries(c.All()))
  {
    forall e | e in LevelEntries(c.All())
      ensures e in VersionEntries(v)
    {
      InputsAreStored(v, c, e);
    }
  }

  lemma InputsAvoidFlushed(v: Version, level: nat, f: File, c: Inputs)
    requires VersionOk(v) && UpperApart(v, c) && LowerThere(v, c) && level == c.level + 1
    requires forall l :: 0 <= l <= level ==> !OverlapInLevel(v, l, f.smallest.user, f.largest.user)
    ensures ValidFiles(c.All())
    ensures forall g :: g in c.All() ==> !Overlaps(g, Some(f.smallest.user), Some(f.largest.user))
  {
    assert !OverlapInLevel(v, c.level, f.smallest.user, f.largest.user);
    assert !OverlapInLevel(v, c.level + 1, f.smallest.user, f.largest.user);
    forall g | g in c.All()
      ensures ValidFile(g) && !Overlaps(g, Some(f.smallest.user), Some(f.largest.user))
    {
      InputIsFile(v, c, g);
    }
    forall i | 0 <= i < |c.All()|
      ensures ValidFile(c.All()[i])
    {
      assert c.All()[i] in c.All();
    }
  }

  lemma InputIsFile(v: Version, c: Inputs, g: File)
    requires VersionOk(v) && c.level + 1 < NUM_LEVELS && SubList(c.upper, v[c.level]) && SubList(c.lower, v[c.level + 1])
    requires g in c.All()
    ensures ValidFile(g) && (g in v[c.level] || g in v[c.level + 1])
  {
    if g in c.upper {
      assert g in v[c.level] && ValidFiles(v[c.level]);
    } else {
      assert g in v[c.level + 1] && ValidFiles(v[c.level + 1]);
    }
  }

  lemma FlushUpper(v: Version, level: nat, f: File, v2: Version, c: Inputs)
    requires UpperApart(v, c) && OneMoreFile(v, level, f, v2)
    requires Above(ToSet(f.entries), LevelEntries(c.All()))
    ensures UpperApart(v2, c)
  {
  }

  lemma FlushLower(v: Version, level: nat, f: File, v2: Version, c: Inputs)
    requires LowerThere(v, c) && OneMoreFile(v, level, f, v2)
    requires Above(ToSet(f.entries), LevelEntries(c.All()))
    ensures LowerThere(v2, c)
    ensures LowerNewer(v, c) ==> LowerNewer(v2, c)
  {
  }

  lemma FlushDeeper(v: Version, level: nat, f: File, v2: Version, j: Job)
    requires OneMoreFile(v, level, f, v2)
    requires Above(ToSet(f.entries), LevelEntries(j.inputs.All()))
    ensures NothingDeeper(v, j) ==> NothingDeeper(v2, j)
  {
    FlushEntries(v, level, f, v2);
  }

  /** All that a flush does to the version. */
  lemma FlushVersion(v: Version, level: nat, f: File, v2: Version, next: nat)
    requires VersionOk(v) && ReadOrder(v) && NumbersBelow(v, next) && next <= f.number
    requires level < NUM_LEVELS && ValidFile(f) && Above(ToSet(f.entries), VersionEntries(v))
    requires Installed(v, VersionEdit({}, [(level, f)]), v2)
    requires level > 0 ==> forall l :: 0 <= l <= level ==> !OverlapInLevel(v, l, f.smallest.user, f.largest.user)
    ensures OneMoreFile(v, level, f, v2) && VersionOk(v2) && ReadOrder(v2)
    ensures VersionEntries(v2) == VersionEntries(v) + ToSet(f.entries)
  {
    assert !NumberInUse(v, f.number);
    FlushInstalls(v, level, f, v2);
    FlushEntries(v, level, f, v2);
    FlushVersionOk(v, level, f, v2);
    assert NumbersBelow(v, f.number);
    FlushReadOrder(v, level, f, v2);
  }

  lemma FlushKeeps(s: State, step: Step, t: State)
    requires Structure(s) && step.Flush? && Next(s, step, t)
    ensures Structure(t)
    ensures ReadersServed(s) ==> ReadersServed(t)
  {
    var f := step.file;
    FlushFacts(s, step, t);
    FlushVersion(s.version, step.level, f, t.version, s.nextFile);
    if s.job.Some? {
      FlushKeepsJob(s.version, step.level, f, t.version, s.job.value);
    }
    FlushNumbers(s.version, step.level, f, t.version, s.nextFile, t.nextFile);
    FlushSets(ToSet(s.mem), ToSet(f.entries), VersionEntries(s.version), VersionEntries(t.version));
    FlushSearchOrder(ToSet(s.mem), ToSet(f.entries), s.version, t.version);
    FlushAssembles(s, t);
  }

  /** A flush leaves the files around a running compaction beside all that it reads if and
      only if the code put the new file there. */
  lemma FlushStaysApartIff(s: State, step: Step, t: State)
    requires Structure(s) && step.Flush? && Next(s, step, t)
    requires s.job.Some? && LowerApart(s.version, s.job.value.inputs)
    ensures LowerApart(t.version, s.job.value.inputs) <==> FlushApart(s, step)
  {
    var f := step.file;
    FlushFacts(s, step, t);
    FlushVersion(s.version, step.level, f, t.version, s.nextFile);
    assert f !in s.version[step.level];
    FlushKeepsApartIff(s.version, step.level, f, t.version, s.job.value.inputs);
  }

  /** The inputs that PickCompaction chooses leave no gap, so then it always is. */
  lemma GapFreeFlushIsApart(s: State, step: Step, t: State)
    requires Structure(s) && step.Flush? && Next(s, step, t)
    requires s.job.Some? ==> GapFree(s.job.value.inputs.All())
    ensures FlushApart(s, step)
  {
    FlushFacts(s, step, t);
    if s.job.Some? && step.level == s.job.value.inputs.level + 1 {
      GapFreeKeepsApart(s.version, step.level, step.file, s.job.value.inputs);
    }
  }

  lemma FlushAssembles(s: State, t: State)
    requires Structure(s) && t == s.(imm := None, version := t.version, nextFile := t.nextFile)
    requires VersionOk(t.version) && NumbersBelow(t.version, t.nextFile)
    requires SearchOrder(ToSet(s.mem), {}, t.version)
    requires ToSet(s.mem) + {} + VersionEntries(t.version) == Db(s)
    requires {} + VersionEntries(t.version) == ImmEntries(s) + VersionEntries(s.version)
    requires s.job.Some? ==> JobOk(t.version, s.job.value)
    requires s.job.Some? && JobReadsOk(s.version, s.job.value) ==> JobReadsOk(t.version, s.job.value)
    ensures Structure(t)
    ensures ReadersServed(s) ==> ReadersServed(t)
  {
    assert ImmEntries(t) == {};
    assert Db(t) == Db(s);
  }

  lemma FlushSets(mem: set<Entry>, imm: set<Entry>, es: set<Entry>, es2: set<Entry>)
    requires es2 == es + imm
    ensures mem + {} + es2 == mem + imm + es && {} + es2 == imm + es
  {
  }

  lemma FlushSearchOrder(mem: set<Entry>, imm: set<Entry>, v: Version, v2: Version)
    requires SearchOrder(mem, imm, v) && ReadOrder(v2)
    requires VersionEntries(v2) == VersionEntries(v) + imm
    ensures SearchOrder(mem, {}, v2)
  {
  }

  lemma FlushFacts(s: State, step: Step, t: State)
    requires Structure(s) && step.Flush? && Next(s, step, t)
    ensures step.level < NUM_LEVELS && ValidFile(step.file) && ToSet(step.file.entries) == ImmEntries(s)
    ensures Above(ToSet(step.file.entries), VersionEntries(s.version))
    ensures step.level > 0 ==> forall l :: 0 <= l <= step.level ==>
      !OverlapInLevel(s.version, l, step.file.smallest.user, step.file.largest.user)
  {
    FlushLevelIsFree(s, step, t);
    assert forall e :: e in ImmEntries(s) ==> e in ToSet(s.mem) + ImmEntries(s);
  }

  lemma FlushLevelIsFree(s: State, step: Step, t: State)
    requires step.Flush? && Next(s, step, t)
    ensures step.level < NUM_LEVELS
    ensures step.level > 0 ==> forall l :: 0 <= l <= step.level ==>
      !OverlapInLevel(s.version, l, step.file.smallest.user, step.file.largest.user)
  {
  }

  lemma FlushNumbers(v: Version, level: nat, f: File, v2: Version, next: nat, next2: nat)
    requires OneMoreFile(v, level, f, v2) && NumbersBelow(v, next) && next <= f.number < next2
    ensures NumbersBelow(v2, next2) && NumbersBelow(v, f.number)
  {
  }
}
