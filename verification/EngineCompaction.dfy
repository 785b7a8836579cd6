/** Choosing inputs, moving a file and finishing a compaction keep the invariant. */
module EngineCompaction {
  import opened Wrappers
  import opened DbFormat
  import opened MultiVersionMap
  import opened Tables
  import opened Versions
  import opened VersionEdits
  import opened KeyRanges
  import opened CompactionInputs
  import opened CompactionWork
  import opened CompactionReads
  import opened Engine
  import opened EngineWrites
  import opened EngineFlush

  // ---------- starting ----------

  lemma EntriesOfBoth(c: Inputs)
    ensures LevelEntries(c.All()) == LevelEntries(c.upper) + LevelEntries(c.lower)
  {
  }

  lemma AboveFiles(a: set<Entry>, files: seq<File>)
    requires forall g :: g in files ==> Above(a, ToSet(g.entries))
    ensures Above(a, LevelEntries(files))
  {
    forall x, y | x in a && y in LevelEntries(files) && x.key.user == y.key.user
      ensures x.key.seqno > y.key.seqno
    {
      var g :| g in files && y in g.entries;
      assert y in ToSet(g.entries);
    }
  }

  lemma EarlierFileAbove(files: seq<File>, i: nat, j: nat)
    requires ValidFiles(files) && LevelSorted(files) && i < j < |files|
    requires UniqueSeqnos(LevelEntries(files))
    ensures Above(ToSet(files[i].entries), ToSet(files[j].entries))
  {
    forall x, y | x in files[i].entries && y in files[j].entries && x.key.user == y.key.user
      ensures x.key.seqno > y.key.seqno
    {
      WithinBounds(files[i], x);
      WithinBounds(files[j], y);
      assert Less(x.key, y.key);
      assert files[i] in files && files[j] in files;
      assert x in LevelEntries(files) && y in LevelEntries(files);
    }
  }

  lemma LaterFileApart(files: seq<File>, j: nat, b: nat, i: nat)
    requires ValidFiles(files) && LevelSorted(files) && j < b <= i < |files| && EndsUserKey(files, b)
    ensures NoSharedUser(ToSet(files[i].entries), ToSet(files[j].entries))
  {
    LargestAscends(files);
    assert files[j].largest.user <= files[b - 1].largest.user < files[b].smallest.user <= files[i].smallest.user by {
      assert Less(files[b - 1].largest, files[b].smallest);
      assert j == b - 1 || Less(files[j].largest, files[b - 1].largest);
      assert i == b || Less(files[b].smallest, files[i].smallest);
    }
    forall x, y | x in files[i].entries && y in files[j].entries
      ensures x.key.user != y.key.user
    {
      WithinBounds(files[i], x);
      WithinBounds(files[j], y);
    }
  }

  /** In a sorted level, a file outside a closed run is newer than the run where they share
      a user key. */
  lemma OutsideRunAbove(files: seq<File>, a: nat, b: nat, f: File)
    requires ValidFiles(files) && LevelSorted(files) && UniqueSeqnos(LevelEntries(files))
    requires a < b <= |files| && EndsUserKey(files, b) && f in files && f !in files[a..b]
    ensures Above(ToSet(f.entries), LevelEntries(files[a..b]))
  {
    var i :| 0 <= i < |files| && files[i] == f;
    NotInRun(files, a, b, i);
    forall g | g in files[a..b]
      ensures Above(ToSet(f.entries), ToSet(g.entries))
    {
      var j := InRun(files, a, b, g);
      if i < a {
        EarlierFileAbove(files, i, j);
      } else {
        LaterFileApart(files, j, b, i);
      }
    }
    AboveFiles(ToSet(f.entries), files[a..b]);
  }

  lemma NotInRun(files: seq<File>, a: nat, b: nat, i: nat)
    requires a <= b <= |files| && i < |files| && files[i] !in files[a..b]
    ensures i < a || b <= i
  {
    if a <= i < b {
      RunMember(files, a, b, i);
    }
  }

  lemma RunMember(files: seq<File>, a: nat, b: nat, i: nat)
    requires a <= i < b <= |files|
    ensures files[i] in files[a..b]
  {
    assert files[a..b][i - a] == files[i];
  }

  lemma InRun(files: seq<File>, a: nat, b: nat, g: File) returns (j: nat)
    requires a <= b <= |files| && g in files[a..b]
    ensures a <= j < b && files[j] == g
  {
    var k :| 0 <= k < b - a && files[a..b][k] == g;
    j := a + k;
  }

  /** In level 0, a file outside the closure shares no user key with it. */
  lemma OutsideHullAbove(files: seq<File>, upper: seq<File>, f: File)
    requires ValidFiles(files) && HullClosed(files, upper) && f in files && f !in upper
    ensures Above(ToSet(f.entries), LevelEntries(upper))
  {
    SubListValid(upper, files);
    RangeOrdered(upper);
    var _, _ := RangeIsExact(upper);
    forall x, y | x in f.entries && y in LevelEntries(upper)
      ensures x.key.user != y.key.user
    {
      var g :| g in upper && y in g.entries;
      assert InRange(g, upper);
      assert ValidFile(g) by { var k :| 0 <= k < |upper| && upper[k] == g; }
      WithinBounds(g, y);
      assert ValidFile(f);
      WithinBounds(f, x);
    }
  }

  lemma LevelsStored(v: Version, l: nat)
    requires l < NUM_LEVELS
    ensures LevelEntries(v[l]) <= VersionEntries(v)
  {
  }

  lemma FileStored(files: seq<File>, f: File)
    requires f in files
    ensures ToSet(f.entries) <= LevelEntries(files)
  {
  }

  lemma SubListEntries(a: seq<File>, b: seq<File>)
    requires SubList(a, b)
    ensures LevelEntries(a) <= LevelEntries(b)
  {
  }

  lemma AboveSubsets(a: set<Entry>, b: set<Entry>, a2: set<Entry>, b2: set<Entry>)
    requires Above(a, b) && a2 <= a && b2 <= b
    ensures Above(a2, b2)
  {
  }

  lemma AboveUnion(a: set<Entry>, b: set<Entry>, c: set<Entry>)
    requires Above(a, b) && Above(a, c)
    ensures Above(a, b + c)
  {
  }

  lemma StartUpper(v: Version, c: Inputs)
    requires VersionOk(v) && ReadOrder(v) && UniqueSeqnos(VersionEntries(v)) && ValidInputs(v, c)
    ensures UpperApart(v, c)
  {
    forall f | f in v[c.level] && f !in c.upper
      ensures Above(ToSet(f.entries), LevelEntries(c.All()))
    {
      UpperFileAboveUpper(v, c, f);
      UpperFileAboveLower(v, c, f);
      EntriesOfBoth(c);
      AboveUnion(ToSet(f.entries), LevelEntries(c.upper), LevelEntries(c.lower));
    }
  }

  lemma UpperFileAboveUpper(v: Version, c: Inputs, f: File)
    requires VersionOk(v) && UniqueSeqnos(VersionEntries(v)) && ValidInputs(v, c)
    requires f in v[c.level] && f !in c.upper
    ensures Above(ToSet(f.entries), LevelEntries(c.upper))
  {
    var l := c.level;
    if l == 0 {
      OutsideHullAbove(v[0], c.upper, f);
    } else {
      LevelsStored(v, l);
      UniqueSubset(VersionEntries(v), LevelEntries(v[l]));
      var a: nat, b: nat :| IsRun(v[l], a, b, c.upper) && EndsUserKey(v[l], b);
      OutsideRunAbove(v[l], a, b, f);
    }
  }

  lemma UpperFileAboveLower(v: Version, c: Inputs, f: File)
    requires ReadOrder(v) && ValidInputs(v, c) && f in v[c.level]
    ensures Above(ToSet(f.entries), LevelEntries(c.lower))
  {
    var l := c.level;
    LowerIsSubList(v, c);
    SubListEntries(c.lower, v[l + 1]);
    FileStored(v[l], f);
    AboveSubsets(LevelEntries(v[l]), LevelEntries(v[l + 1]), ToSet(f.entries), LevelEntries(c.lower));
  }

  lemma LowerIsSubList(v: Version, c: Inputs)
    requires ValidInputs(v, c)
    ensures SubList(c.lower, v[c.level + 1])
  {
  }

  /** A lower file that the compaction leaves ends before the upper files start, or starts
      after they end. */
  lemma LowerFileSides(v: Version, c: Inputs, f: File)
    requires VersionOk(v) && ValidInputs(v, c) && f in v[c.level + 1] && f !in c.lower
    ensures f.largest.user < LowUser(c.upper) || HighUser(c.upper) < f.smallest.user
  {
  }

  /** The file comes before everything the compaction reads. */
  lemma LowerFileBefore(v: Version, c: Inputs, f: File, i: nat)
    requires VersionOk(v) && ValidInputs(v, c) && UniqueSeqnos(VersionEntries(v))
    requires i < |v[c.level + 1]| && f == v[c.level + 1][i] && f !in c.lower
    requires f.largest.user < LowUser(c.upper)
    ensures Above(ToSet(f.entries), LevelEntries(c.All()))
    ensures forall e :: e in LevelEntries(c.All()) ==> Less(f.largest, e.key)
  {
    var files := v[c.level + 1];
    LevelsStored(v, c.level + 1);
    UniqueSubset(VersionEntries(v), LevelEntries(files));
    forall g | g in c.lower
      ensures Less(f.largest, g.smallest) && Above(ToSet(f.entries), ToSet(g.entries))
    {
      var j :| 0 <= j < |files| && files[j] == g;
      LargestAscends(files);
      assert i != j;
      assert Less(files[i].largest, files[j].largest);
      EarlierFileAbove(files, i, j);
    }
    AboveFiles(ToSet(f.entries), c.lower);
    UpperUsers(v, c);
    forall e | e in LevelEntries(c.All())
      ensures Less(f.largest, e.key)
    {
      if e in LevelEntries(c.lower) {
        LowerEntryAfter(v, c, f, e);
      } else {
        assert e in LevelEntries(c.upper) by { EntriesOfBoth(c); }
      }
    }
    AboveUpperBySide(v, c, f);
    EntriesOfBoth(c);
    AboveUnion(ToSet(f.entries), LevelEntries(c.upper), LevelEntries(c.lower));
  }

  lemma UpperUsers(v: Version, c: Inputs)
    requires VersionOk(v) && ValidInputs(v, c)
    ensures forall e :: e in LevelEntries(c.upper) ==> LowUser(c.upper) <= e.key.user <= HighUser(c.upper)
  {
    var _, _ := RangeIsExact(c.upper);
    forall e | e in LevelEntries(c.upper)
      ensures LowUser(c.upper) <= e.key.user <= HighUser(c.upper)
    {
      var g :| g in c.upper && e in g.entries;
      assert InRange(g, c.upper);
      assert g in v[c.level] && ValidFiles(v[c.level]);
      WithinBounds(g, e);
    }
  }

  lemma AboveUpperBySide(v: Version, c: Inputs, f: File)
    requires VersionOk(v) && ValidInputs(v, c) && ValidFile(f)
    requires f.largest.user < LowUser(c.upper) || HighUser(c.upper) < f.smallest.user
    ensures Above(ToSet(f.entries), LevelEntries(c.upper))
  {
    UpperUsers(v, c);
    forall x, y | x in f.entries && y in LevelEntries(c.upper)
      ensures x.key.user != y.key.user
    {
      WithinBounds(f, x);
    }
  }

  lemma LowerEntryAfter(v: Version, c: Inputs, f: File, e: Entry)
    requires VersionOk(v) && ValidInputs(v, c) && e in LevelEntries(c.lower)
    requires forall g :: g in c.lower ==> Less(f.largest, g.smallest)
    ensures Less(f.largest, e.key)
  {
    var g :| g in c.lower && e in g.entries;
    assert g in v[c.level + 1] && ValidFiles(v[c.level + 1]);
    WithinBounds(g, e);
  }

  lemma LowerEntryBefore(v: Version, c: Inputs, f: File, e: Entry)
    requires VersionOk(v) && ValidInputs(v, c) && e in LevelEntries(c.lower)
    requires forall g :: g in c.lower ==> Less(g.largest, f.smallest)
    ensures Less(e.key, f.smallest)
  {
    var g :| g in c.lower && e in g.entries;
    assert g in v[c.level + 1] && ValidFiles(v[c.level + 1]);
    WithinBounds(g, e);
  }

  /** The file comes after everything the compaction reads; if the lower files are closed,
      it does not continue their last user key. */
  lemma LowerFileAfter(v: Version, c: Inputs, f: File)
    requires VersionOk(v) && ValidInputs(v, c)
    requires f in v[c.level + 1] && f !in c.lower
    requires HighUser(c.upper) < f.smallest.user
    ensures LowerClosed(v, c) ==> Above(ToSet(f.entries), LevelEntries(c.All()))
    ensures forall e :: e in LevelEntries(c.All()) ==> Less(e.key, f.smallest)
  {
    forall g | g in c.lower
      ensures Less(g.largest, f.smallest)
    {
      LowerEndsBefore(v, c, f, g);
    }
    forall g | g in c.lower && LowerClosed(v, c)
      ensures Above(ToSet(f.entries), ToSet(g.entries))
    {
      NoContinuation(v, c, f, g);
    }
    UpperUsers(v, c);
    forall e | e in LevelEntries(c.All())
      ensures Less(e.key, f.smallest)
    {
      if e in LevelEntries(c.lower) {
        LowerEntryBefore(v, c, f, e);
      } else {
        assert e in LevelEntries(c.upper) by { EntriesOfBoth(c); }
      }
    }
    if LowerClosed(v, c) {
      AboveFiles(ToSet(f.entries), c.lower);
      AboveUpperBySide(v, c, f);
      EntriesOfBoth(c);
      AboveUnion(ToSet(f.entries), LevelEntries(c.upper), LevelEntries(c.lower));
    }
  }

  lemma LowerEndsBefore(v: Version, c: Inputs, f: File, g: File)
    requires VersionOk(v) && ValidInputs(v, c)
    requires f in v[c.level + 1] && f !in c.lower && g in c.lower && HighUser(c.upper) < f.smallest.user
    ensures Less(g.largest, f.smallest)
  {
    var files := v[c.level + 1];
    LevelSortedDisjoint(files);
    assert g in files && f != g;
    assert ValidFile(f) && ValidFile(g);
    WithinBounds(f, f.entries[0]);
    WithinBounds(g, g.entries[0]);
    LessIsTotal(g.smallest, f.smallest, f.largest);
    LessIsTotal(g.smallest, f.largest, g.smallest);
  }

  lemma NoContinuation(v: Version, c: Inputs, f: File, g: File)
    requires VersionOk(v) && ValidInputs(v, c) && LowerClosed(v, c)
    requires f in v[c.level + 1] && g in c.lower
    requires forall h :: h in c.lower ==> Less(h.largest, f.smallest)
    ensures Above(ToSet(f.entries), ToSet(g.entries))
  {
    hide LevelSorted, UpperClosed;
    var _, last := RangeIsExact(c.lower);
    assert InRange(g, c.lower);
    assert !IsBoundaryFile(f, last.largest);
    assert g.largest.user <= last.largest.user < f.smallest.user;
    assert g in v[c.level + 1] && ValidFiles(v[c.level + 1]);
    forall x, y | x in f.entries && y in g.entries
      ensures x.key.user != y.key.user
    {
      WithinBounds(f, x);
      WithinBounds(g, y);
    }
  }

  lemma RunKeepsOrder(files: seq<File>, a: nat, b: nat)
    requires a <= b <= |files|
    ensures DistinctNumbers(files) ==> DistinctNumbers(files[a..b])
    ensures LevelSorted(files) ==> LevelSorted(files[a..b])
  {
  }

  lemma ChosenInOrder(v: Version, c: Inputs)
    requires VersionOk(v) && ValidInputs(v, c)
    ensures InputsInOrder(c)
  {
    var files := v[c.level];
    assert DistinctNumbers(files) && LevelSorted(v[c.level + 1]) && (c.level > 0 ==> LevelSorted(files));
    FilterKeepsOrder(v[c.level + 1], Some(LowUser(c.upper)), Some(HighUser(c.upper)));
    hide VersionOk, LevelSorted, DistinctNumbers;
    if c.level == 0 {
      var lo, hi :| c.upper == OverlapFilter(files, lo, hi);
      FilterKeepsOrder(files, lo, hi);
    } else {
      var a: nat, b: nat :| IsRun(files, a, b, c.upper);
      RunKeepsOrder(files, a, b);
    }
  }

  /** The state right after inputs are chosen. */
  lemma StartEstablishesJob(v: Version, c: Inputs, smallest: nat)
    requires VersionOk(v) && ReadOrder(v) && UniqueSeqnos(VersionEntries(v))
    requires ValidInputs(v, c)
    ensures JobOk(v, Job(c, smallest, v)) && LowerApart(v, c)
    ensures LowerClosed(v, c) ==> JobReadsOk(v, Job(c, smallest, v))
  {
    ChosenInOrder(v, c);
    StartUpper(v, c);
    LowerIsSubList(v, c);
    hide InputsInOrder;
    forall f | f in v[c.level + 1] && f !in c.lower
      ensures Apart(f, LevelEntries(c.All()))
      ensures LowerClosed(v, c) ==> Above(ToSet(f.entries), LevelEntries(c.All()))
    {
      var i :| 0 <= i < |v[c.level + 1]| && f == v[c.level + 1][i];
      LowerFileSides(v, c, f);
      if f.largest.user < LowUser(c.upper) {
        LowerFileBefore(v, c, f, i);
      } else {
        LowerFileAfter(v, c, f);
      }
    }
    StartDeeper(v, c, smallest);
  }

  lemma StartDeeper(v: Version, c: Inputs, smallest: nat)
    requires VersionOk(v) && ValidInputs(v, c)
    ensures NothingDeeper(v, Job(c, smallest, v))
  {
    forall l, d, e | c.level + 2 <= l < NUM_LEVELS && d in LevelEntries(c.All()) && e in LevelEntries(v[l])
      && d.key.user == e.key.user && IsBaseLevel(v, c.level, d.key.user)
      ensures false
    {
      var f :| f in v[l] && e in f.entries;
      assert ValidFiles(v[l]);
      WithinBounds(f, e);
      assert CoversUserKey(f, d.key.user);
    }
  }

  lemma StartKeeps(s: State, step: Step, t: State)
    requires Structure(s) && step.StartCompaction? && Next(s, step, t)
    ensures Structure(t) && LowerApart(t.version, step.inputs)
    ensures ReadersServed(s) && StartsClosed(s, step) ==> ReadersServed(t)
  {
    hide VersionOk, ReadOrder, JobOk, JobReadsOk, ReadsOk, SnapshotsOk, NumbersBelow, PendingInMem, LowerClosed,
      OnlyWrites, LowerApart;
    assert Db(t) == Db(s);
    WritesAreUnique(Db(s), s.history, s.applied);
    UniqueSubset(Db(s), VersionEntries(s.version));
    StartEstablishesJob(s.version, step.inputs, OldestReader(s));
  }
}
