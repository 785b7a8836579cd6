/** Replacing the inputs of a compaction by its outputs keeps the invariant. */
module EngineFinish {
  import opened Wrappers
  import opened DbFormat
  import opened MultiVersionMap
  import opened Tables
  import opened Versions
  import opened VersionEdits
  import opened CompactionInputs
  import opened CompactionWork
  import opened CompactionReads
  import opened Engine
  import opened EngineWrites
  import opened EngineFlush
  import opened EngineCompaction

  /** v2 is v with the inputs taken out of their levels and the outputs put into the lower one. */
  ghost predicate Replaced(v: Version, c: Inputs, outputs: seq<File>, v2: Version) {
    && c.level + 1 < NUM_LEVELS
    && (forall l :: 0 <= l < NUM_LEVELS && l != c.level && l != c.level + 1 ==> v2[l] == v[l])
    && FilesSorted(v2[c.level]) && FilesSorted(v2[c.level + 1])
    && (forall f :: f in v2[c.level] <==> f in v[c.level] && f !in c.upper)
    && (forall f :: f in v2[c.level + 1] <==> (f in v[c.level + 1] && f !in c.lower) || f in outputs)
  }

  /** Numbers of outputs are new, or belong to an upper file that moves. */
  ghost predicate OutputNumbers(v: Version, c: Inputs, outputs: seq<File>) {
    && DistinctNumbers(outputs)
    && forall f, l, g :: f in outputs && 0 <= l < NUM_LEVELS && g in v[l] && f.number == g.number ==>
         l == c.level && g in c.upper
  }

  lemma DeletedByNumber(files: seq<File>, inputs: seq<File>, f: File)
    requires DistinctNumbers(files) && SubList(inputs, files) && f in files
    ensures (exists g :: g in inputs && g.number == f.number) <==> f in inputs
  {
    if g :| g in inputs && g.number == f.number {
      NumbersIdentify(files, f, g);
    }
  }

  lemma InstallReplaces(v: Version, c: Inputs, outputs: seq<File>, e: VersionEdit, v2: Version)
    requires VersionOk(v) && c.level + 1 < NUM_LEVELS
    requires SubList(c.upper, v[c.level]) && SubList(c.lower, v[c.level + 1])
    requires e == VersionEdit(InputDeletions(c), AtLevel(c.level + 1, outputs))
    requires OutputNumbers(v, c, outputs) && Installed(v, e, v2)
    ensures Replaced(v, c, outputs, v2)
  {
    forall l | 0 <= l < NUM_LEVELS
      ensures FilesSorted(v2[l])
      ensures forall f :: f in v2[l] <==> (f in v[l] && (l, f.number) !in e.deleted) || (l, f) in e.newFiles
    {
      NewAtLevel(c.level + 1, outputs, l);
      EditMembers(v[l], e, l, v2[l]);
    }
    forall l | 0 <= l < NUM_LEVELS && l != c.level && l != c.level + 1
      ensures v2[l] == v[l]
    {
      NewAtLevel(c.level + 1, outputs, l);
      SortedListUnique(v2[l], v[l]);
    }
    forall f
      ensures f in v2[c.level] <==> f in v[c.level] && f !in c.upper
    {
      NewAtLevel(c.level + 1, outputs, c.level);
      if f in v[c.level] {
        DeletedByNumber(v[c.level], c.upper, f);
        DeletedAtUpper(c, f.number);
      }
    }
    forall f
      ensures f in v2[c.level + 1] <==> (f in v[c.level + 1] && f !in c.lower) || f in outputs
    {
      NewAtLevel(c.level + 1, outputs, c.level + 1);
      if f in v[c.level + 1] {
        DeletedByNumber(v[c.level + 1], c.lower, f);
        DeletedAtLower(c, f.number);
      }
    }
  }

  lemma NewAtLevel(level: nat, outputs: seq<File>, l: nat)
    ensures forall f :: (l, f) in AtLevel(level, outputs) <==> l == level && f in outputs
    ensures DistinctNumbers(outputs) ==> DistinctNew(AtLevel(level, outputs), l)
  {
    var nf := AtLevel(level, outputs);
    forall f | l == level && f in outputs
      ensures (l, f) in nf
    {
      var i :| 0 <= i < |outputs| && outputs[i] == f;
      assert nf[i] == (l, f);
    }
  }

  lemma DeletedAtUpper(c: Inputs, n: nat)
    ensures (c.level, n) in InputDeletions(c) <==> exists g :: g in c.upper && g.number == n
  {
    if g :| g in c.upper && g.number == n {
      assert (c.level, g.number) in InputDeletions(c);
    }
  }

  lemma DeletedAtLower(c: Inputs, n: nat)
    ensures (c.level + 1, n) in InputDeletions(c) <==> exists g :: g in c.lower && g.number == n
  {
    if g :| g in c.lower && g.number == n {
      assert (c.level + 1, g.number) in InputDeletions(c);
    }
  }

  // ---------- the new version is well formed ----------

  lemma OutputIsInput(c: Inputs, outputs: seq<File>, g: File)
    requires ValidFiles(outputs) && g in outputs && LevelEntries(outputs) <= LevelEntries(c.All())
    ensures ValidFile(g) && ToSet(g.entries) <= LevelEntries(c.All())
    ensures g.entries[0] in LevelEntries(c.All()) && g.entries[|g.entries| - 1] in LevelEntries(c.All())
  {
    FileStored(outputs, g);
    assert g.entries[0] in ToSet(g.entries) && g.entries[|g.entries| - 1] in ToSet(g.entries);
  }

  lemma KeptFileDisjoint(v: Version, c: Inputs, outputs: seq<File>, f: File, g: File)
    requires LowerApart(v, c) && f in v[c.level + 1] && f !in c.lower
    requires ValidFiles(outputs) && g in outputs && LevelEntries(outputs) <= LevelEntries(c.All())
    ensures Less(f.largest, g.smallest) || Less(g.largest, f.smallest)
  {
    OutputIsInput(c, outputs, g);
  }

  /** Files that lie beside all that the compaction reads are no obstacle to its outputs. */
  lemma ApartOutputsFit(v: Version, c: Inputs, outputs: seq<File>)
    requires LowerApart(v, c) && ValidFiles(outputs) && LevelEntries(outputs) <= LevelEntries(c.All())
    ensures OutputsFit(v, c, outputs)
  {
    forall f, g | f in v[c.level + 1] && f !in c.lower && g in outputs
      ensures Less(f.largest, g.smallest) || Less(g.largest, f.smallest)
    {
      KeptFileDisjoint(v, c, outputs, f, g);
    }
  }

  /** The lower level is sorted after the compaction exactly when the outputs fit between
      the files that it leaves. */
  lemma LowerSortedIffFits(v: Version, c: Inputs, outputs: seq<File>, v2: Version)
    requires VersionOk(v) && Replaced(v, c, outputs, v2)
    requires ValidFiles(outputs) && LevelSorted(outputs)
    requires forall f :: f in outputs ==> f !in v[c.level + 1]
    ensures LevelSorted(v2[c.level + 1]) <==> OutputsFit(v, c, outputs)
  {
    if OutputsFit(v, c, outputs) {
      LowerLevelSorted(v, c, outputs, v2);
    }
    if LevelSorted(v2[c.level + 1]) {
      LowerFilesValid(v, c, outputs, v2);
      LevelSortedDisjoint(v2[c.level + 1]);
    }
  }

  lemma LowerFilesValid(v: Version, c: Inputs, outputs: seq<File>, v2: Version)
    requires VersionOk(v) && Replaced(v, c, outputs, v2) && ValidFiles(outputs)
    ensures ValidFiles(v2[c.level + 1])
  {
    var files := v2[c.level + 1];
    forall i | 0 <= i < |files|
      ensures ValidFile(files[i])
    {
      assert files[i] in files;
      assert files[i] in v[c.level + 1] || files[i] in outputs;
    }
  }

  lemma LowerLevelSorted(v: Version, c: Inputs, outputs: seq<File>, v2: Version)
    requires VersionOk(v) && OutputsFit(v, c, outputs) && Replaced(v, c, outputs, v2)
    requires ValidFiles(outputs) && LevelSorted(outputs)
    ensures ValidFiles(v2[c.level + 1]) && LevelSorted(v2[c.level + 1])
  {
    var files := v2[c.level + 1];
    LowerFilesValid(v, c, outputs, v2);
    LevelSortedDisjoint(outputs);
    LevelSortedDisjoint(v[c.level + 1]);
    forall f, g | f in files && g in files && f != g
      ensures Less(f.largest, g.smallest) || Less(g.largest, f.smallest)
    {
      assert f in outputs || (f in v[c.level + 1] && f !in c.lower);
    }
    DisjointLevelSorted(files);
  }

  lemma FewerFiles(files: seq<File>, rest: seq<File>)
    requires ValidFiles(files) && DistinctNumbers(files) && FilesSorted(rest) && SubList(rest, files)
    ensures ValidFiles(rest) && DistinctNumbers(rest)
    ensures LevelSorted(files) ==> LevelSorted(rest)
  {
    SubListValid(rest, files);
    forall f, g | f in rest && g in rest && f.number == g.number
      ensures f == g
    {
      NumbersIdentify(files, f, g);
    }
    DistinctByMembers(rest);
    if LevelSorted(files) {
      LevelSortedDisjoint(files);
      DisjointLevelSorted(rest);
    }
  }

  lemma LowerNumbers(v: Version, c: Inputs, outputs: seq<File>, v2: Version)
    requires VersionOk(v) && Replaced(v, c, outputs, v2) && OutputNumbers(v, c, outputs)
    ensures DistinctNumbers(v2[c.level + 1])
  {
    var files := v2[c.level + 1];
    forall f, g | f in files && g in files && f.number == g.number
      ensures f == g
    {
      if f in outputs && g in outputs {
        NumbersIdentify(outputs, f, g);
      } else if f !in outputs && g !in outputs {
        NumbersIdentify(v[c.level + 1], f, g);
      }
    }
    DistinctByMembers(files);
  }

  lemma ReplacedDisjoint(v: Version, c: Inputs, outputs: seq<File>, v2: Version, l: nat, m: nat)
    requires VersionOk(v) && Replaced(v, c, outputs, v2) && OutputNumbers(v, c, outputs)
    requires l < m < NUM_LEVELS
    ensures DisjointNumbers(v2[l], v2[m])
  {
    assert DisjointNumbers(v[l], v[m]);
    forall f, g | f in v2[l] && g in v2[m]
      ensures f.number != g.number
    {
      if l == c.level + 1 && f in outputs {
        assert g in v[m];
      } else if m == c.level + 1 && g in outputs {
        assert f in v[l] && !(l == c.level && f in c.upper);
      } else {
        assert f in v[l] && g in v[m];
      }
    }
  }

  lemma ReplacedOk(v: Version, c: Inputs, outputs: seq<File>, v2: Version)
    requires VersionOk(v) && OutputsFit(v, c, outputs) && Replaced(v, c, outputs, v2)
    requires OutputNumbers(v, c, outputs)
    requires ValidFiles(outputs) && LevelSorted(outputs)
    ensures VersionOk(v2)
  {
    LowerLevelSorted(v, c, outputs, v2);
    LowerNumbers(v, c, outputs, v2);
    FewerFiles(v[c.level], v2[c.level]);
    forall l | 0 <= l < NUM_LEVELS
      ensures ValidFiles(v2[l]) && DistinctNumbers(v2[l]) && FilesSorted(v2[l]) && (l > 0 ==> LevelSorted(v2[l]))
    {
      if l != c.level && l != c.level + 1 {
        assert v2[l] == v[l];
      }
    }
    forall l, m | 0 <= l < m < NUM_LEVELS
      ensures DisjointNumbers(v2[l], v2[m])
    {
      ReplacedDisjoint(v, c, outputs, v2, l, m);
    }
  }

  // ---------- its entries and their order ----------

  lemma InputsBelow(v: Version, c: Inputs)
    requires c.level + 1 < NUM_LEVELS && SubList(c.upper, v[c.level]) && SubList(c.lower, v[c.level + 1])
    ensures LevelEntries(c.All()) <= LevelEntries(v[c.level]) + LevelEntries(v[c.level + 1])
  {
    EntriesOfBoth(c);
    SubListEntries(c.upper, v[c.level]);
    SubListEntries(c.lower, v[c.level + 1]);
  }

  /** Entries of the lower level after the step: of kept files, or read by the compaction. */
  lemma LowerEntries(v: Version, c: Inputs, outputs: seq<File>, v2: Version)
    requires Replaced(v, c, outputs, v2) && LevelEntries(outputs) <= LevelEntries(c.All())
    ensures LevelEntries(v2[c.level + 1]) <= LevelEntries(v[c.level + 1]) + LevelEntries(c.All())
    ensures LevelEntries(v2[c.level]) <= LevelEntries(v[c.level])
  {
    forall e | e in LevelEntries(v2[c.level + 1])
      ensures e in LevelEntries(v[c.level + 1]) || e in LevelEntries(c.All())
    {
      var f :| f in v2[c.level + 1] && e in f.entries;
      if f in outputs {
        assert e in LevelEntries(outputs);
      }
    }
  }

  lemma UpperAboveInputs(v: Version, c: Inputs, outputs: seq<File>, v2: Version)
    requires Replaced(v, c, outputs, v2) && UpperApart(v, c)
    ensures Above(LevelEntries(v2[c.level]), LevelEntries(c.All()))
  {
    forall x, y | x in LevelEntries(v2[c.level]) && y in LevelEntries(c.All()) && x.key.user == y.key.user
      ensures x.key.seqno > y.key.seqno
    {
      var f :| f in v2[c.level] && x in f.entries;
      assert x in ToSet(f.entries);
    }
  }

  lemma AboveSum(a: set<Entry>, b: set<Entry>, c: set<Entry>)
    requires Above(a, c) && Above(b, c)
    ensures Above(a + b, c)
  {
  }

  lemma ReplacedPairOrder(v: Version, c: Inputs, outputs: seq<File>, v2: Version, l: nat, m: nat)
    requires ReadOrder(v) && UpperApart(v, c) && LowerThere(v, c) && Replaced(v, c, outputs, v2)
    requires LevelEntries(outputs) <= LevelEntries(c.All()) && l < m < NUM_LEVELS
    ensures Above(LevelEntries(v2[l]), LevelEntries(v2[m]))
  {
    var up, low := c.level, c.level + 1;
    var es := LevelEntries(c.All());
    InputsBelow(v, c);
    LowerEntries(v, c, outputs, v2);
    UpperAboveInputs(v, c, outputs, v2);
    assert Above(LevelEntries(v[l]), LevelEntries(v[m]));
    if m == low {
      if l == up {
        AboveSubsets(LevelEntries(v[up]), LevelEntries(v[low]), LevelEntries(v2[up]), LevelEntries(v[low]));
      } else {
        assert v2[l] == v[l];
        assert Above(LevelEntries(v[l]), LevelEntries(v[up]));
        AboveUnion(LevelEntries(v[l]), LevelEntries(v[up]), LevelEntries(v[low]));
        AboveSubsets(LevelEntries(v[l]), LevelEntries(v[up]) + LevelEntries(v[low]), LevelEntries(v[l]), es);
      }
      AboveUnion(LevelEntries(v2[l]), LevelEntries(v[low]), es);
      AboveSubsets(LevelEntries(v2[l]), LevelEntries(v[low]) + es, LevelEntries(v2[l]), LevelEntries(v2[low]));
    } else if l == low {
      assert v2[m] == v[m];
      assert Above(LevelEntries(v[up]), LevelEntries(v[m]));
      AboveSum(LevelEntries(v[up]), LevelEntries(v[low]), LevelEntries(v[m]));
      AboveSubsets(LevelEntries(v[up]) + LevelEntries(v[low]), LevelEntries(v[m]), LevelEntries(v2[low]), LevelEntries(v[m]));
    } else {
      AboveSubsets(LevelEntries(v[l]), LevelEntries(v[m]), LevelEntries(v2[l]), LevelEntries(v2[m]));
    }
  }

  lemma ReplacedReadOrder(v: Version, c: Inputs, outputs: seq<File>, v2: Version)
    requires ReadOrder(v) && UpperApart(v, c) && LowerThere(v, c) && Replaced(v, c, outputs, v2)
    requires LevelEntries(outputs) <= LevelEntries(c.All())
    ensures ReadOrder(v2)
  {
    forall l, m | 0 <= l < m < NUM_LEVELS
      ensures Above(LevelEntries(v2[l]), LevelEntries(v2[m]))
    {
      ReplacedPairOrder(v, c, outputs, v2, l, m);
    }
    assert SubList(v2[0], v[0]);
    FewerFilesOrder(v[0], v2[0]);
  }

  lemma FewerFilesOrder(files: seq<File>, rest: seq<File>)
    requires NewestNumberAbove(files) && SubList(rest, files)
    ensures NewestNumberAbove(rest)
  {
  }

  /** An entry that the compaction reads is in no file that it leaves. */
  lemma NotInOtherFiles(v: Version, c: Inputs, l: nat, f: File, e: Entry)
    requires VersionOk(v) && ReadOrder(v) && UpperApart(v, c) && LowerThere(v, c)
    requires l < NUM_LEVELS && f in v[l] && e in f.entries
    requires l == c.level ==> f !in c.upper
    requires l == c.level + 1 ==> f !in c.lower
    ensures e !in LevelEntries(c.All())
  {
    assert e in ToSet(f.entries);
    if l == c.level {
      assert Above(ToSet(f.entries), LevelEntries(c.All()));
    } else if l == c.level + 1 {
      NotInUpper(v, c.level, e);
      NotInLower(v, c, f, e);
      SubListEntries(c.upper, v[c.level]);
      EntriesOfBoth(c);
    } else {
      InputsBelow(v, c);
      FileStored(v[l], f);
      OtherLevel(v, c, l, e);
    }
  }

  lemma NotInUpper(v: Version, l: nat, e: Entry)
    requires ReadOrder(v) && l + 1 < NUM_LEVELS && e in LevelEntries(v[l + 1])
    ensures e !in LevelEntries(v[l])
  {
    assert Above(LevelEntries(v[l]), LevelEntries(v[l + 1]));
  }

  /** Files of a sorted level share no entry. */
  lemma NotInLower(v: Version, c: Inputs, f: File, e: Entry)
    requires VersionOk(v) && LowerThere(v, c) && f in v[c.level + 1] && f !in c.lower && e in f.entries
    ensures e !in LevelEntries(c.lower)
  {
    var files := v[c.level + 1];
    LevelSortedDisjoint(files);
    forall g | g in c.lower
      ensures e !in g.entries
    {
      assert g in files && f != g && ValidFile(f) && ValidFile(g);
      WithinBounds(f, e);
      OutsideBounds(g, e);
    }
  }

  lemma OutsideBounds(g: File, e: Entry)
    requires ValidFile(g) && (Less(e.key, g.smallest) || Less(g.largest, e.key))
    ensures e !in g.entries
  {
    if e in g.entries {
      WithinBounds(g, e);
    }
  }

  lemma OtherLevel(v: Version, c: Inputs, l: nat, e: Entry)
    requires ReadOrder(v) && c.level + 1 < NUM_LEVELS && l < NUM_LEVELS && l != c.level && l != c.level + 1
    requires e in LevelEntries(v[l])
    ensures e !in LevelEntries(v[c.level]) && e !in LevelEntries(v[c.level + 1])
  {
    assert l < c.level ==> Above(LevelEntries(v[l]), LevelEntries(v[c.level]));
    assert c.level < l ==> Above(LevelEntries(v[c.level]), LevelEntries(v[l]));
    assert l < c.level + 1 ==> Above(LevelEntries(v[l]), LevelEntries(v[c.level + 1]));
    assert c.level + 1 < l ==> Above(LevelEntries(v[c.level + 1]), LevelEntries(v[l]));
  }

  /** What is stored afterwards: everything except what was read and not written. */
  lemma ReplacedEntries(v: Version, c: Inputs, outputs: seq<File>, v2: Version)
    requires VersionOk(v) && ReadOrder(v) && UpperApart(v, c) && LowerThere(v, c) && Replaced(v, c, outputs, v2)
    requires LevelEntries(outputs) <= LevelEntries(c.All())
    ensures VersionEntries(v2) == VersionEntries(v) - (LevelEntries(c.All()) - LevelEntries(outputs))
  {
    forall e
      ensures e in VersionEntries(v2) <==>
        e in VersionEntries(v) && (e in LevelEntries(c.All()) ==> e in LevelEntries(outputs))
    {
      if e in VersionEntries(v2) {
        StillStored(v, c, outputs, v2, e);
      }
      if e in VersionEntries(v) && (e in LevelEntries(c.All()) ==> e in LevelEntries(outputs)) {
        StaysStored(v, c, outputs, v2, e);
      }
    }
  }

  lemma StillStored(v: Version, c: Inputs, outputs: seq<File>, v2: Version, e: Entry)
    requires VersionOk(v) && ReadOrder(v) && UpperApart(v, c) && LowerThere(v, c) && Replaced(v, c, outputs, v2)
    requires LevelEntries(outputs) <= LevelEntries(c.All()) && e in VersionEntries(v2)
    ensures e in VersionEntries(v) && (e in LevelEntries(c.All()) ==> e in LevelEntries(outputs))
  {
    var l :| 0 <= l < NUM_LEVELS && e in LevelEntries(v2[l]);
    var f :| f in v2[l] && e in f.entries;
    if l == c.level + 1 && f in outputs {
      assert e in LevelEntries(outputs);
      InputsAreStored(v, c, e);
    } else {
      assert f in v[l];
      assert e in LevelEntries(v[l]);
      NotInOtherFiles(v, c, l, f, e);
    }
  }

  lemma NotOfFiles(files: seq<File>, f: File, e: Entry)
    requires e in f.entries && e !in LevelEntries(files)
    ensures f !in files
  {
  }

  lemma StaysStored(v: Version, c: Inputs, outputs: seq<File>, v2: Version, e: Entry)
    requires Replaced(v, c, outputs, v2) && e in VersionEntries(v)
    requires e in LevelEntries(c.All()) ==> e in LevelEntries(outputs)
    ensures e in VersionEntries(v2)
  {
    if e in LevelEntries(outputs) {
      assert e in LevelEntries(v2[c.level + 1]);
    } else {
      var l :| 0 <= l < NUM_LEVELS && e in LevelEntries(v[l]);
      var f :| f in v[l] && e in f.entries;
      NotOfFiles(c.All(), f, e);
      assert f in v2[l];
      assert e in LevelEntries(v2[l]);
    }
  }

  // ---------- the two steps ----------

  lemma TrivialMoveKeeps(s: State, step: Step, t: State)
    requires Structure(s) && step.TrivialMove? && Next(s, step, t)
    ensures Structure(t)
    ensures ReadersServed(s) ==> ReadersServed(t)
  {
    hide VersionOk, ReadOrder, JobOk, JobReadsOk, ReadsOk, SnapshotsOk, NumbersBelow, PendingInMem, OnlyWrites,
      Installed, Replaced, ValidInputs;
    MoveFacts(s, step, t);
    MoveVersion(s.version, step.inputs, t.version);
    MoveNumbers(s.version, step.inputs, t.version, s.nextFile);
    NewVersionKeeps(s, t);
    assert Db(t) == Db(s);
  }

  lemma MoveFacts(s: State, step: Step, t: State)
    requires Structure(s) && step.TrivialMove? && Next(s, step, t)
    ensures UniqueSeqnos(VersionEntries(s.version))
    ensures t == s.(version := t.version, nextFile := t.nextFile, job := None)
  {
    WritesAreUnique(Db(s), s.history, s.applied);
    UniqueSubset(Db(s), VersionEntries(s.version));
  }

  /** Steps that only replace the version. */
  lemma NewVersionKeeps(s: State, t: State)
    requires Structure(s) && t == s.(version := t.version, nextFile := t.nextFile, job := None)
    requires VersionOk(t.version) && NumbersBelow(t.version, t.nextFile) && ReadOrder(t.version)
    requires VersionEntries(t.version) <= VersionEntries(s.version)
    ensures Structure(t)
    ensures ReadsOk(Db(t), s.history, OldestReader(s), s.lastSequence) ==> ReadersServed(t)
  {
    FewerEntriesOrder(ToSet(s.mem), ImmEntries(s), s.version, t.version);
    assert Db(t) <= Db(s);
    assert OnlyWrites(Db(t), t.history, t.applied);
    assert AllVisible(ImmEntries(t) + VersionEntries(t.version), t.lastSequence);
  }

  lemma MoveVersion(v: Version, c: Inputs, v2: Version)
    requires VersionOk(v) && ReadOrder(v) && UniqueSeqnos(VersionEntries(v))
    requires ValidInputs(v, c) && |c.upper| == 1 && c.lower == []
    requires Installed(v, VersionEdit({(c.level, c.upper[0].number)}, [(c.level + 1, c.upper[0])]), v2)
    ensures Replaced(v, c, c.upper, v2) && VersionOk(v2) && ReadOrder(v2)
    ensures VersionEntries(v2) == VersionEntries(v)
  {
    hide ReadOrder, UniqueSeqnos, Installed, Replaced, ValidInputs, UpperApart, LowerApart, LowerThere, OutputsFit,
      OutputNumbers, LevelSorted, ValidFiles;
    StartEstablishesJob(v, c, 0);
    MoveOutput(v, c);
    ApartOutputsFit(v, c, c.upper);
    MoveReplaces(v, c, v2);
    MoveNumbersOk(v, c);
    ReplacedOk(v, c, c.upper, v2);
    ReplacedReadOrder(v, c, c.upper, v2);
    ReplacedEntries(v, c, c.upper, v2);
  }

  lemma MoveReplaces(v: Version, c: Inputs, v2: Version)
    requires VersionOk(v) && ValidInputs(v, c) && |c.upper| == 1 && c.lower == []
    requires Installed(v, VersionEdit({(c.level, c.upper[0].number)}, [(c.level + 1, c.upper[0])]), v2)
    ensures Replaced(v, c, c.upper, v2)
  {
    MoveNumbersOk(v, c);
    MoveEdit(c);
    InstallReplaces(v, c, c.upper, VersionEdit(InputDeletions(c), AtLevel(c.level + 1, c.upper)), v2);
  }

  lemma MoveOutput(v: Version, c: Inputs)
    requires VersionOk(v) && ValidInputs(v, c) && |c.upper| == 1 && c.lower == []
    ensures ValidFiles(c.upper) && LevelSorted(c.upper) && LevelEntries(c.upper) == LevelEntries(c.All())
  {
    SubListValid(c.upper, v[c.level]);
    assert c.All() == c.upper;
  }

  lemma MoveEdit(c: Inputs)
    requires |c.upper| == 1 && c.lower == []
    ensures VersionEdit(InputDeletions(c), AtLevel(c.level + 1, c.upper))
         == VersionEdit({(c.level, c.upper[0].number)}, [(c.level + 1, c.upper[0])])
  {
    assert c.upper == [c.upper[0]];
    assert InputDeletions(c) == {(c.level, c.upper[0].number)};
  }

  lemma NumberHasOneLevel(v: Version, l: nat, f: File, m: nat, g: File)
    requires VersionOk(v) && l < NUM_LEVELS && m < NUM_LEVELS && f in v[l] && g in v[m] && f.number == g.number
    ensures l == m && f == g
  {
    assert l < m ==> DisjointNumbers(v[l], v[m]);
    assert m < l ==> DisjointNumbers(v[m], v[l]);
    NumbersIdentify(v[l], f, g);
  }

  lemma MoveNumbersOk(v: Version, c: Inputs)
    requires VersionOk(v) && ValidInputs(v, c) && |c.upper| == 1
    ensures OutputNumbers(v, c, c.upper)
  {
    var f := c.upper[0];
    assert f in c.upper;
    assert f in v[c.level];
    forall l, g | 0 <= l < NUM_LEVELS && g in v[l] && f.number == g.number
      ensures l == c.level && g in c.upper
    {
      NumberHasOneLevel(v, c.level, f, l, g);
    }
  }

  lemma MoveNumbers(v: Version, c: Inputs, v2: Version, next: nat)
    requires ValidInputs(v, c) && Replaced(v, c, c.upper, v2) && NumbersBelow(v, next)
    ensures NumbersBelow(v2, next)
  {
  }

  /** Files cut from a sorted sequence form a legal level. */
  lemma {:induction false} CutsAreSorted(files: seq<File>)
    requires ValidFiles(files) && Sorted(Concat(files))
    ensures LevelSorted(files)
    ensures LevelEntries(files) == ToSet(Concat(files))
  {
    if files != [] {
      var init := files[..|files| - 1];
      var last := files[|files| - 1];
      assert Concat(files) == Concat(init) + last.entries;
      PrefixSorted(Concat(init), last.entries);
      CutsAreSorted(init);
      forall i | 0 <= i < |init|
        ensures Less(files[i].largest, last.smallest)
      {
        var g := files[i];
        assert g == init[i] && g in init;
        var e := g.entries[|g.entries| - 1];
        assert e in g.entries;
        assert e in LevelEntries(init);
        var k :| 0 <= k < |Concat(init)| && Concat(init)[k] == e;
        assert Concat(files)[k] == e && Concat(files)[|Concat(init)|] == last.entries[0];
      }
      assert files == init + [last];
      assert LevelEntries(files) == LevelEntries(init) + ToSet(last.entries);
    }
  }

  lemma PrefixSorted(a: seq<Entry>, b: seq<Entry>)
    requires Sorted(a + b)
    ensures Sorted(a)
  {
    forall i, j | 0 <= i < j < |a|
      ensures Less(a[i].key, a[j].key)
    {
      assert (a + b)[i] == a[i] && (a + b)[j] == a[j];
    }
  }

  lemma {:induction false} KeptSorted(input: seq<Entry>, n: nat, smallest: nat, v: Version, level: nat)
    requires Sorted(input) && n <= |input|
    ensures Sorted(Kept(input, n, smallest, v, level))
    ensures forall e :: e in Kept(input, n, smallest, v, level) ==> e in input[..n]
  {
    if n > 0 {
      KeptSorted(input, n - 1, smallest, v, level);
      var k := Kept(input, n - 1, smallest, v, level);
      assert input[..n] == input[..n - 1] + [input[n - 1]];
      forall e | e in k
        ensures Less(e.key, input[n - 1].key)
      {
        assert e in input[..n - 1];
      }
    }
  }

  /** No live reader depends on an entry that the compaction drops: everything else of the
      same user key is newer. */
  lemma RestIsNewer(mem: set<Entry>, imm: set<Entry>, v: Version, j: Job, d: Entry, e: Entry)
    requires SearchOrder(mem, imm, v) && JobOk(v, j) && JobReadsOk(v, j)
    requires d in LevelEntries(j.inputs.All()) && e !in LevelEntries(j.inputs.All())
    requires e in mem + imm + VersionEntries(v) && e.key.user == d.key.user
    requires IsBaseLevel(j.inputVersion, j.inputs.level, d.key.user)
    ensures e.key.seqno > d.key.seqno
  {
    InputsAreStored(v, j.inputs, d);
    if e !in mem + imm {
      var l :| 0 <= l < NUM_LEVELS && e in LevelEntries(v[l]);
      RestOfLevelIsNewer(v, j, l, d, e);
    }
  }

  lemma RestOfLevelIsNewer(v: Version, j: Job, l: nat, d: Entry, e: Entry)
    requires ReadOrder(v) && JobOk(v, j) && JobReadsOk(v, j) && l < NUM_LEVELS
    requires d in LevelEntries(j.inputs.All()) && e !in LevelEntries(j.inputs.All())
    requires e in LevelEntries(v[l]) && e.key.user == d.key.user
    requires IsBaseLevel(j.inputVersion, j.inputs.level, d.key.user)
    ensures e.key.seqno > d.key.seqno
  {
    var c := j.inputs;
    if l < c.level {
      InputsAreStored(v, c, d);
      assert Above(LevelEntries(v[l]), LevelEntries(v[c.level]));
      assert Above(LevelEntries(v[l]), LevelEntries(v[c.level + 1]));
    } else if l <= c.level + 1 {
      var f :| f in v[l] && e in f.entries;
      NotOfFiles(c.All(), f, e);
      assert Above(ToSet(f.entries), LevelEntries(c.All()));
      assert e in ToSet(f.entries);
    }
  }

  /** The answers after a compaction step. */
  lemma InputsInDb(v: Version, j: Job, input: seq<Entry>)
    requires JobOk(v, j) && ToSet(input) == LevelEntries(j.inputs.All())
    ensures ToSet(input) <= VersionEntries(v)
  {
    forall e | e in ToSet(input)
      ensures e in VersionEntries(v)
    {
      InputsAreStored(v, j.inputs, e);
    }
  }

  lemma FinishReads(mem: set<Entry>, imm: set<Entry>, v: Version, j: Job, input: seq<Entry>)
    requires SearchOrder(mem, imm, v) && JobOk(v, j) && JobReadsOk(v, j) && UniqueSeqnos(mem + imm + VersionEntries(v))
    requires Sorted(input) && ToSet(input) == LevelEntries(j.inputs.All()) && j.smallest < MAX_SEQUENCE
    ensures PreservesReads(mem + imm + VersionEntries(v),
      Dropped(input, j.smallest, j.inputVersion, j.inputs.level), j.smallest)
  {
    InputsInDb(v, j, input);
    hide JobOk, LowerNewer, NothingDeeper, SearchOrder, UniqueSeqnos, Sorted, Dropped, PreservesReads, IsBaseLevel;
    var db := mem + imm + VersionEntries(v);
    forall d, e | d in input && e in db && e !in input && e.key.user == d.key.user
      && ObsoleteMarker(d, j.smallest, j.inputVersion, j.inputs.level)
      ensures e.key.seqno > d.key.seqno
    {
      assert d in ToSet(input) && e !in ToSet(input);
      RestIsNewer(mem, imm, v, j, d, e);
    }
    NoOlderOutsideSuffices(db, input, j.smallest, j.inputVersion, j.inputs.level);
  }

  /** What the end of a compaction installs. */
  lemma FinishReplaces(v: Version, j: Job, input: seq<Entry>, outputs: seq<File>, next: nat, v2: Version)
    requires VersionOk(v) && JobOk(v, j)
    requires Sorted(input) && ToSet(input) == LevelEntries(j.inputs.All()) && ValidFiles(outputs)
    requires Concat(outputs) == Kept(input, |input|, j.smallest, j.inputVersion, j.inputs.level)
    requires FreshNumbers(v, outputs, next) && Installed(v, FinishEdit(j.inputs, outputs), v2)
    ensures Replaced(v, j.inputs, outputs, v2) && OutputNumbers(v, j.inputs, outputs)
    ensures LevelSorted(outputs) && (forall f :: f in outputs ==> f !in v[j.inputs.level + 1])
    ensures LevelEntries(outputs) == ToSet(input) - Dropped(input, j.smallest, j.inputVersion, j.inputs.level)
  {
    var c := j.inputs;
    KeptSorted(input, |input|, j.smallest, j.inputVersion, c.level);
    KeptIsRest(input, j.smallest, j.inputVersion, c.level);
    CutsAreSorted(outputs);
    assert OutputNumbers(v, c, outputs);
    InstallReplaces(v, c, outputs, FinishEdit(c, outputs), v2);
    forall f | f in outputs
      ensures f !in v[c.level + 1]
    {
      assert !NumberInUse(v, f.number);
    }
  }

  lemma FinishVersion(v: Version, j: Job, input: seq<Entry>, outputs: seq<File>, next: nat, v2: Version)
    requires VersionOk(v) && ReadOrder(v) && JobOk(v, j)
    requires Sorted(input) && ToSet(input) == LevelEntries(j.inputs.All()) && ValidFiles(outputs)
    requires Concat(outputs) == Kept(input, |input|, j.smallest, j.inputVersion, j.inputs.level)
    requires FreshNumbers(v, outputs, next) && Installed(v, FinishEdit(j.inputs, outputs), v2)
    requires OutputsFit(v, j.inputs, outputs)
    ensures Replaced(v, j.inputs, outputs, v2) && VersionOk(v2) && ReadOrder(v2)
    ensures VersionEntries(v2) == VersionEntries(v) - Dropped(input, j.smallest, j.inputVersion, j.inputs.level)
  {
    var c := j.inputs;
    FinishReplaces(v, j, input, outputs, next, v2);
    ReplacedOk(v, c, outputs, v2);
    ReplacedReadOrder(v, c, outputs, v2);
    ReplacedEntries(v, c, outputs, v2);
    var dropped := Dropped(input, j.smallest, j.inputVersion, c.level);
    assert dropped <= ToSet(input);
    assert ToSet(input) - (ToSet(input) - dropped) == dropped;
  }

  lemma FinishNumbers(v: Version, c: Inputs, outputs: seq<File>, v2: Version, next: nat, next2: nat)
    requires Replaced(v, c, outputs, v2) && NumbersBelow(v, next) && next <= next2
    requires forall f :: f in outputs ==> f.number < next2
    ensures NumbersBelow(v2, next2)
  {
  }

  lemma DroppedFromVersionOnly(mem: set<Entry>, imm: set<Entry>, v: Version, j: Job, dropped: set<Entry>)
    requires SearchOrder(mem, imm, v) && JobOk(v, j) && dropped <= LevelEntries(j.inputs.All())
    ensures mem + imm + (VersionEntries(v) - dropped) == (mem + imm + VersionEntries(v)) - dropped
  {
    forall e | e in dropped
      ensures e !in mem + imm
    {
      InputsAreStored(v, j.inputs, e);
      assert Above(mem + imm, VersionEntries(v));
    }
  }

  lemma FewerEntriesOrder(mem: set<Entry>, imm: set<Entry>, v: Version, v2: Version)
    requires SearchOrder(mem, imm, v) && ReadOrder(v2) && VersionEntries(v2) <= VersionEntries(v)
    ensures SearchOrder(mem, imm, v2)
  {
  }

  lemma FinishReadsOk(db: set<Entry>, dropped: set<Entry>, h: seq<Entry>, smallest: nat, oldest: nat, last: nat)
    requires ReadsOk(db, h, oldest, last) && PreservesReads(db, dropped, smallest) && smallest <= oldest
    ensures ReadsOk(db - dropped, h, oldest, last)
  {
    forall u: UserKey, n: nat | oldest <= n <= last
      ensures Read(db - dropped, u, n) == LastWrite(h, u, n)
    {
      assert Read(db - dropped, u, n) == Read(db, u, n);
    }
  }

  /** Finishing takes from the database exactly what the loop dropped. */
  lemma FinishTakesDropped(s: State, step: Step, t: State)
    requires Structure(s) && step.FinishCompaction? && Next(s, step, t)
    ensures VersionEntries(t.version) == VersionEntries(s.version) - DroppedBy(s, step)
    ensures Db(t) == Db(s) - DroppedBy(s, step)
  {
    var j := s.job.value;
    var input := step.input;
    FinishReplaces(s.version, j, input, step.outputs, t.nextFile, t.version);
    ReplacedEntries(s.version, j.inputs, step.outputs, t.version);
    var dropped := DroppedBy(s, step);
    assert dropped <= ToSet(input);
    assert ToSet(input) - (ToSet(input) - dropped) == dropped;
    DroppedWereRead(input, j);
    DroppedFromVersionOnly(ToSet(s.mem), ImmEntries(s), s.version, j, dropped);
  }

  /** It keeps the structure if the outputs fit ... */
  lemma FinishKeepsStructure(s: State, step: Step, t: State)
    requires Structure(s) && step.FinishCompaction? && Next(s, step, t) && FinishFits(s, step)
    ensures Structure(t)
    ensures Db(t) == Db(s) - DroppedBy(s, step)
    ensures ReadsOk(Db(t), s.history, OldestReader(s), s.lastSequence) ==> ReadersServed(t)
  {
    var j := s.job.value;
    var mem, imm := ToSet(s.mem), ImmEntries(s);
    FinishVersion(s.version, j, step.input, step.outputs, t.nextFile, t.version);
    FinishNumbers(s.version, j.inputs, step.outputs, t.version, s.nextFile, t.nextFile);
    DroppedWereRead(step.input, j);
    DroppedFromVersionOnly(mem, imm, s.version, j, DroppedBy(s, step));
    NewVersionKeeps(s, t);
  }

  /** ... and only then: otherwise the lower level is not sorted afterwards. */
  lemma FinishKeepsStructureIff(s: State, step: Step, t: State)
    requires Structure(s) && step.FinishCompaction? && Next(s, step, t)
    ensures Structure(t) <==> FinishFits(s, step)
    ensures LevelSorted(t.version[s.job.value.inputs.level + 1]) <==> FinishFits(s, step)
  {
    var j := s.job.value;
    FinishReplaces(s.version, j, step.input, step.outputs, t.nextFile, t.version);
    LowerSortedIffFits(s.version, j.inputs, step.outputs, t.version);
    if FinishFits(s, step) {
      FinishKeepsStructure(s, step, t);
    }
    if Structure(t) {
      LowerIsSorted(t.version, j.inputs.level + 1);
    }
  }

  lemma LowerIsSorted(v: Version, l: nat)
    requires VersionOk(v) && 0 < l < NUM_LEVELS
    ensures LevelSorted(v[l])
  {
  }

  ghost function DroppedBy(s: State, step: Step): set<Entry>
    requires step.FinishCompaction? && s.job.Some?
  {
    var j := s.job.value;
    Dropped(step.input, j.smallest, j.inputVersion, j.inputs.level)
  }

  lemma FinishKeeps(s: State, step: Step, t: State)
    requires Inv(s) && step.FinishCompaction? && Next(s, step, t) && FinishFits(s, step)
    ensures Inv(t)
  {
    var j := s.job.value;
    WritesAreUnique(Db(s), s.history, s.applied);
    FinishKeepsStructure(s, step, t);
    FinishReads(ToSet(s.mem), ImmEntries(s), s.version, j, step.input);
    FinishReadsOk(Db(s), DroppedBy(s, step), s.history, j.smallest, OldestReader(s), s.lastSequence);
  }

  /** In every run, closed or not: a finished compaction changes no answer at or above its
      snapshot if and only if it resurrects nothing. */
  lemma FinishPreservesReadsIff(s: State, step: Step, t: State)
    requires Structure(s) && step.FinishCompaction? && Next(s, step, t)
    ensures var j := s.job.value;
      SameAnswers(Db(s), Db(t), j.smallest)
      <==> ResurrectsNothing(Db(s), step.input, j.smallest, j.inputVersion, j.inputs.level)
  {
    var j := s.job.value;
    FinishTakesDropped(s, step, t);
    FinishInputs(s, step, t);
    CompactionPreservesReadsIff(Db(s), step.input, j.smallest, j.inputVersion, j.inputs.level);
  }

  lemma InputsStored(v: Version, c: Inputs)
    requires UpperApart(v, c) && LowerThere(v, c)
    ensures LevelEntries(c.All()) <= VersionEntries(v)
  {
    forall e | e in LevelEntries(c.All())
      ensures e in VersionEntries(v)
    {
      InputsAreStored(v, c, e);
    }
  }

  lemma FinishInputs(s: State, step: Step, t: State)
    requires Structure(s) && step.FinishCompaction? && Next(s, step, t)
    ensures UniqueSeqnos(Db(s)) && Sorted(step.input) && ToSet(step.input) <= Db(s)
    ensures s.job.value.smallest < MAX_SEQUENCE
  {
    WritesAreUnique(Db(s), s.history, s.applied);
    assert OldestReader(s) <= s.lastSequence;
    InputsStored(s.version, s.job.value.inputs);
  }

  lemma DroppedWereRead(input: seq<Entry>, j: Job)
    requires ToSet(input) == LevelEntries(j.inputs.All())
    ensures Dropped(input, j.smallest, j.inputVersion, j.inputs.level) <= LevelEntries(j.inputs.All())
  {
    forall e | e in Dropped(input, j.smallest, j.inputVersion, j.inputs.level)
      ensures e in ToSet(input)
    {
    }
  }
}
