/** Two runs that show what the hypotheses about compactions are for.  Both use only steps
    that the code can take. */
module EngineWitnesses {
  import opened Wrappers
  import opened DbFormat
  import opened MultiVersionMap
  import opened Tables
  import opened Versions
  import opened KeyRanges
  import opened VersionEdits
  import opened MemTableOutput
  import opened CompactionInputs
  import opened CompactionWork
  import opened Engine
  import opened EngineFinish
  import opened EngineRuns

  /** The state ends a run in which the outputs of every compaction fit their level. */
  ghost predicate Reachable(s: State) {
    exists states, steps :: IsTrace(states, steps) && FinishesFit(states, steps) && states[|steps|] == s
  }

  lemma StartReachable(s: State)
    requires Init(s)
    ensures Reachable(s)
  {
    assert IsTrace([s], []) && FinishesFit([s], []);
  }

  lemma StepReachable(s: State, step: Step, t: State)
    requires Reachable(s) && Next(s, step, t) && FinishFits(s, step)
    ensures Reachable(t)
  {
    var states, steps :| IsTrace(states, steps) && FinishesFit(states, steps) && states[|steps|] == s;
    var states2, steps2 := states + [t], steps + [step];
    forall i | 0 <= i < |steps2|
      ensures Next(states2[i], steps2[i], states2[i + 1]) && FinishFits(states2[i], steps2[i])
    {
      if i < |steps| {
        assert states2[i] == states[i] && states2[i + 1] == states[i + 1] && steps2[i] == steps[i];
        assert FinishFits(states[i], steps[i]);
      }
    }
    assert IsTrace(states2, steps2) && FinishesFit(states2, steps2);
  }

  /** One write, from start to end. */
  lemma WriteReachable(s: State, op: Operation) returns (t: State)
    requires Reachable(s) && s.lastSequence == s.applied == |s.history| < MAX_SEQUENCE - 1
    ensures Reachable(t)
    ensures var e := Entry(InternalKey(op.user, s.lastSequence + 1, op.vtype), op.value);
      t == s.(history := s.history + [e], applied := s.applied + 1, lastSequence := s.lastSequence + 1,
              mem := InsertSorted(s.mem, e))
  {
    var e := Entry(InternalKey(op.user, s.lastSequence + 1, op.vtype), op.value);
    assert Numbered([op], s.lastSequence + 1) == [e];
    var s1 := s.(history := s.history + [e]);
    StepReachable(s, BeginWrite([op]), s1);
    var s2 := s1.(mem := InsertSorted(s1.mem, s1.history[s1.applied]), applied := s1.applied + 1);
    StepReachable(s1, InsertOne, s2);
    t := s2.(lastSequence := s2.applied);
    StepReachable(s2, Publish, t);
  }

  // ---------- a deleted value comes back ----------

  const A: UserKey := 0.0
  const U: UserKey := 1.0

  const A1 := Entry(InternalKey(A, 1, Value), [1])
  const U2 := Entry(InternalKey(U, 2, Value), [2])
  const U3 := Entry(InternalKey(U, 3, Deletion), [])
  const A4 := Entry(InternalKey(A, 4, Value), [4])

  /** The first flushed memtable, the two files it is cut into, the second flushed memtable
      and what is left of it and the first of the two. */
  const FLUSHED := MakeFile(2, 0, [A1, U3, U2])
  const HEAD := MakeFile(3, 0, [A1, U3])
  const TAIL := MakeFile(4, 0, [U2])
  const NEWER := MakeFile(5, 0, [A4])
  const MERGED := MakeFile(6, 0, [A4])

  /** A version with files in levels 2 and 3 only. */
  function TwoLevels(two: seq<File>, three: seq<File>): Version {
    [[], [], two, three, [], [], []]
  }

  lemma FlushedToTwo(three: seq<File>, f: File)
    requires ValidFile(f)
    ensures OutputLevel(TwoLevels([], three), f.smallest.user, f.largest.user,
                        TotalFileSize(OverlapFilter(three, Some(f.smallest.user), Some(f.largest.user))), 2)
  {
    var v := TwoLevels([], three);
    var limit := TotalFileSize(OverlapFilter(three, Some(f.smallest.user), Some(f.largest.user)));
    assert v[0] == [] && v[1] == [] && v[2] == [] && v[3] == three;
    assert forall l :: 0 <= l <= 2 ==> !OverlapInLevel(v, l, f.smallest.user, f.largest.user);
    assert OverlapBytes(v, 2, f.smallest.user, f.largest.user) == 0;
  }

  /** What a version must look like to be the result of an edit. */
  ghost predicate EditedLevel(files: seq<File>, e: VersionEdit, l: nat, files2: seq<File>) {
    && FilesSorted(files2)
    && forall f :: f in files2 <==> (f in files && (l, f.number) !in e.deleted) || (l, f) in e.newFiles
  }

  lemma EditedIsSaved(files: seq<File>, e: VersionEdit, l: nat, files2: seq<File>)
    requires EditedLevel(files, e, l, files2) && DistinctNew(e.newFiles, l)
    requires forall f, g :: f in files && (l, g) in e.newFiles ==> f.number != g.number
    ensures SavedLevel(files, ApplyLevel(LevelState({}, []), e, l), files2)
  {
    AddAllMembers(LevelState({} + DeletedAt(e, l), []), e.newFiles, l);
    forall f
      ensures f in files2 <==> SavedMember(files, ApplyLevel(LevelState({}, []), e, l), f)
    {
      assert f.number in DeletedAt(e, l) <==> (l, f.number) in e.deleted;
    }
  }

  lemma Edited(two: seq<File>, three: seq<File>, e: VersionEdit, two2: seq<File>, three2: seq<File>)
    requires EditedLevel(two, e, 2, two2) && EditedLevel(three, e, 3, three2)
    requires DistinctNew(e.newFiles, 2) && DistinctNew(e.newFiles, 3)
    requires forall i :: 0 <= i < |e.newFiles| ==> e.newFiles[i].0 == 2 || e.newFiles[i].0 == 3
    requires forall f, g :: f in two && (2, g) in e.newFiles ==> f.number != g.number
    requires forall f, g :: f in three && (3, g) in e.newFiles ==> f.number != g.number
    ensures Installed(TwoLevels(two, three), e, TwoLevels(two2, three2))
  {
    var v, v2 := TwoLevels(two, three), TwoLevels(two2, three2);
    forall l | 0 <= l < NUM_LEVELS
      ensures SavedLevel(v[l], ApplyLevel(LevelState({}, []), e, l), v2[l])
    {
      if l == 2 {
        EditedIsSaved(two, e, 2, two2);
      } else if l == 3 {
        EditedIsSaved(three, e, 3, three2);
      } else {
        assert v[l] == [] && v2[l] == [];
        EditedIsSaved([], e, l, []);
      }
    }
  }

  /** Three writes, with a reader that holds the second. */
  lemma AfterThreeWrites() returns (s: State)
    ensures Reachable(s)
    ensures s == State([A1, U2, U3], 3, 3, [A1, U3, U2], None, EMPTY_VERSION, 2, [2], None)
  {
    hide Reachable;
    var s0 := State([], 0, 0, [], None, EMPTY_VERSION, 2, [], None);
    StartReachable(s0);
    var s1 := WriteReachable(s0, Operation(Value, A, [1]));
    var s2 := WriteReachable(s1, Operation(Value, U, [2]));
    assert s2.mem == [A1, U2];
    var s3 := s2.(snapshots := [2]);
    StepReachable(s2, GetSnapshot, s3);
    s := WriteReachable(s3, Operation(Deletion, U, []));
    assert s.mem == [A1, U3, U2];
  }

  /** The memtable becomes a file of level 2. */
  lemma MemTableFlushed(s: State, three: seq<File>, f: File) returns (t: State)
    requires Reachable(s) && s.version == TwoLevels([], three) && s.imm.None? && s.job.None?
    requires s.lastSequence == |s.history| && s.mem != [] && s.nextFile == f.number
    requires f == MakeFile(f.number, f.size, s.mem) && ValidFile(f) && FilesSorted(three)
    ensures Reachable(t)
    ensures t == s.(mem := [], version := TwoLevels([f], three), nextFile := f.number + 1)
  {
    var s1 := s.(imm := Some(s.mem), mem := []);
    StepReachable(s, SwitchMemTable, s1);
    t := s1.(imm := None, version := TwoLevels([f], three), nextFile := f.number + 1);
    FlushedToTwo(three, f);
    var e := VersionEdit({}, [(2, f)]);
    assert forall g :: (3, g) !in e.newFiles;
    Edited([], three, e, [f], three);
    StepReachable(s1, Flush(2, f), t);
  }

  /** A compaction of one file of level 2 starts. */
  lemma CompactionStarted(s: State, f: File, three: seq<File>, lower: seq<File>) returns (t: State)
    requires Reachable(s) && s.version == TwoLevels([f], three) && s.job.None?
    requires lower == OverlapFilter(three, Some(f.smallest.user), Some(f.largest.user))
    ensures Reachable(t)
    ensures t == s.(job := Some(Job(Inputs(2, [f], lower), OldestReader(s), s.version)))
  {
    var c := Inputs(2, [f], lower);
    assert s.version[2] == [f] && s.version[3] == three;
    assert IsRun([f], 0, 1, [f]) && EndsUserKey([f], 1);
    assert LowUser([f]) == f.smallest.user && HighUser([f]) == f.largest.user;
    assert ValidInputs(s.version, c);
    t := s.(job := Some(Job(c, OldestReader(s), s.version)));
    StepReachable(s, StartCompaction(c), t);
  }

  lemma BaseLevelTwo(two: seq<File>, three: seq<File>, u: UserKey)
    ensures IsBaseLevel(TwoLevels(two, three), 2, u)
  {
  }

  /** The snapshot keeps the marker and the value under it apart, and the outputs are cut
      between them. */
  lemma FirstCut(v: Version)
    ensures Kept([A1, U3, U2], 3, 2, v, 2) == [A1, U3, U2] == Concat([HEAD, TAIL])
  {
    var input := [A1, U3, U2];
    assert !Drops(input, 0, 2, v, 2) && !Drops(input, 1, 2, v, 2) && !Drops(input, 2, 2, v, 2);
    assert Kept(input, 1, 2, v, 2) == [A1];
    assert Kept(input, 2, 2, v, 2) == [A1, U3];
    ConcatSnoc([], HEAD);
    ConcatSnoc([HEAD], TAIL);
  }

  /** Without the snapshot the marker goes. */
  lemma SecondCut(three: seq<File>)
    ensures var v := TwoLevels([NEWER], three);
      Kept([A4, A1, U3], 3, 4, v, 2) == [A4] == Concat([MERGED])
  {
    var v := TwoLevels([NEWER], three);
    var input := [A4, A1, U3];
    BaseLevelTwo([NEWER], three, U);
    assert !Drops(input, 0, 4, v, 2) && Drops(input, 1, 4, v, 2) && Drops(input, 2, 4, v, 2);
    assert Kept(input, 1, 4, v, 2) == [A4];
    assert Kept(input, 2, 4, v, 2) == [A4];
    ConcatSnoc([], MERGED);
  }

  /** A compaction of one file of level 2 ends. */
  lemma CompactionFinished(s: State, f: File, three: seq<File>, lower: seq<File>, input: seq<Entry>,
                           outputs: seq<File>, three2: seq<File>, next: nat) returns (t: State)
    requires Reachable(s) && s.version == TwoLevels([f], three) && s.job.Some?
    requires s.job.value.inputs == Inputs(2, [f], lower)
    requires Sorted(input) && ToSet(input) == LevelEntries([f] + lower)
    requires ValidFiles(outputs) && DistinctNumbers(outputs)
    requires Concat(outputs) == Kept(input, |input|, s.job.value.smallest, s.job.value.inputVersion, 2)
    requires s.nextFile <= next
    requires forall g :: g in outputs ==> s.nextFile <= g.number < next
    requires forall g :: g in [f] + three ==> g.number < s.nextFile
    requires EditedLevel(three, FinishEdit(Inputs(2, [f], lower), outputs), 3, three2)
    requires OutputsFit(s.version, Inputs(2, [f], lower), outputs)
    ensures Reachable(t)
    ensures t == s.(job := None, version := TwoLevels([], three2), nextFile := next)
  {
    hide Reachable, Installed, FreshNumbers, FinishEdit, EditedLevel, OutputsFit, Kept, Sorted, ValidFiles;
    t := s.(job := None, version := TwoLevels([], three2), nextFile := next);
    FinishEditedLevels(f, three, lower, outputs, three2);
    NumbersAreFresh(s.version, [f] + three, outputs, s.nextFile, next);
    StepReachable(s, FinishCompaction(input, outputs), t);
  }

  lemma FinishEditedLevels(f: File, three: seq<File>, lower: seq<File>, outputs: seq<File>, three2: seq<File>)
    requires EditedLevel(three, FinishEdit(Inputs(2, [f], lower), outputs), 3, three2)
    requires DistinctNumbers(outputs) && forall g, h :: g in three && h in outputs ==> g.number != h.number
    ensures Installed(TwoLevels([f], three), FinishEdit(Inputs(2, [f], lower), outputs), TwoLevels([], three2))
  {
    var e := FinishEdit(Inputs(2, [f], lower), outputs);
    FinishEditedUpper(f, lower, outputs);
    NewAtLevel(3, outputs, 2);
    NewAtLevel(3, outputs, 3);
    assert forall h :: (3, h) in e.newFiles ==> h in outputs;
    Edited([f], three, e, [], three2);
  }

  lemma NumbersAreFresh(v: Version, files: seq<File>, outputs: seq<File>, from: nat, next: nat)
    requires forall l, g :: 0 <= l < NUM_LEVELS && g in v[l] ==> g in files
    requires forall g :: g in files ==> g.number < from
    requires DistinctNumbers(outputs) && forall g :: g in outputs ==> from <= g.number < next
    ensures FreshNumbers(v, outputs, next)
  {
  }

  lemma FinishEditedUpper(f: File, lower: seq<File>, outputs: seq<File>)
    ensures EditedLevel([f], FinishEdit(Inputs(2, [f], lower), outputs), 2, [])
  {
    var c := Inputs(2, [f], lower);
    NewAtLevel(3, outputs, 2);
    DeletedAtUpper(c, f.number);
    assert f in c.upper;
  }

  lemma FirstOfTwoOverlaps(f: File, g: File, lo: Option<UserKey>, hi: Option<UserKey>)
    requires Overlaps(f, lo, hi) && !Overlaps(g, lo, hi)
    ensures OverlapFilter([f, g], lo, hi) == [f]
  {
    assert [f, g][..1] == [f] && [f][..0] == [];
    assert OverlapFilter([f], lo, hi) == [f];
  }

  /** The files of level 3 after the first compaction, and after the second. */
  lemma FirstEdit()
    ensures EditedLevel([], FinishEdit(Inputs(2, [FLUSHED], []), [HEAD, TAIL]), 3, [HEAD, TAIL])
  {
    NewAtLevel(3, [HEAD, TAIL], 3);
    assert FilesSorted([HEAD, TAIL]);
  }

  lemma SecondEdit()
    ensures EditedLevel([HEAD, TAIL], FinishEdit(Inputs(2, [NEWER], [HEAD]), [MERGED]), 3, [MERGED, TAIL])
  {
    var c := Inputs(2, [NEWER], [HEAD]);
    NewAtLevel(3, [MERGED], 3);
    DeletedAtLower(c, 3);
    DeletedAtLower(c, 4);
    assert HEAD in c.lower;
    assert FilesSorted([MERGED, TAIL]);
  }

  /** Two flushes' worth of history: after the first compaction the marker of U and the value
      under it are in different files of level 3, and the snapshot is gone. */
  lemma MarkerApartFromValue() returns (s: State)
    ensures Reachable(s)
    ensures s == State([A1, U2, U3], 3, 3, [], None, TwoLevels([], [HEAD, TAIL]), 5, [], None)
  {
    hide Reachable;
    var s1 := AfterThreeWrites();
    var s2 := MemTableFlushed(s1, [], FLUSHED);
    var s3 := CompactionStarted(s2, FLUSHED, [], []);
    FirstCut(s2.version);
    FirstEdit();
    InputEntries([FLUSHED], [A1, U3, U2]);
    var s4 := CompactionFinished(s3, FLUSHED, [], [], [A1, U3, U2], [HEAD, TAIL], [HEAD, TAIL], 5);
    s := s4.(snapshots := []);
    StepReachable(s4, ReleaseSnapshot(0), s);
  }

  lemma {:induction false} InputEntries(files: seq<File>, input: seq<Entry>)
    requires 1 <= |files| <= 2
    requires forall e :: e in input <==> e in files[0].entries || (|files| == 2 && e in files[1].entries)
    ensures LevelEntries(files) == ToSet(input)
  {
    assert files == if |files| == 1 then [files[0]] else [files[0], files[1]];
    forall e
      ensures e in LevelEntries(files) <==> e in input
    {
      if e in files[0].entries {
        assert files[0] in files;
      }
      if |files| == 2 && e in files[1].entries {
        assert files[1] in files;
      }
    }
  }

  lemma SecondFlush() returns (s: State)
    ensures Reachable(s)
    ensures s == State([A1, U2, U3, A4], 4, 4, [], None, TwoLevels([NEWER], [HEAD, TAIL]), 6, [], None)
  {
    hide Reachable;
    var s5 := MarkerApartFromValue();
    var s6 := WriteReachable(s5, Operation(Value, A, [4]));
    assert s6.mem == [A4];
    assert FilesSorted([HEAD, TAIL]);
    s := MemTableFlushed(s6, [HEAD, TAIL], NEWER);
  }

  lemma SecondCompaction() returns (s: State)
    ensures Reachable(s)
    ensures s == State([A1, U2, U3, A4], 4, 4, [], None, TwoLevels([], [MERGED, TAIL]), 7, [], None)
  {
    hide Reachable;
    var s7 := SecondFlush();
    FirstOfTwoOverlaps(HEAD, TAIL, Some(A), Some(A));
    var s8 := CompactionStarted(s7, NEWER, [HEAD, TAIL], [HEAD]);
    assert s8.version[3] == [HEAD, TAIL];
    SecondCut([HEAD, TAIL]);
    SecondEdit();
    InputEntries([NEWER, HEAD], [A4, A1, U3]);
    s := CompactionFinished(s8, NEWER, [HEAD, TAIL], [HEAD], [A4, A1, U3], [MERGED], [MERGED, TAIL], 7);
  }

  /** The lower files of a compaction are not closed over user keys: the deletion marker of
      U is dropped, and the older value in the next file comes back to life.  Every step is
      one the code can take: two flushes, a compaction under a snapshot whose outputs are
      cut inside a user key, and a compaction that overlaps only the first of them. */
  lemma DeletedValueReturns() returns (s: State)
    ensures Reachable(s) && s.job.None? && IsReader(s, 4)
    ensures LastWrite(s.history, U, 4) == None
    ensures Read(Db(s), U, 4) == Some(U2.value)
  {
    s := SecondCompaction();
    ReadOfU(s);
  }

  lemma ReadOfU(s: State)
    requires s == State([A1, U2, U3, A4], 4, 4, [], None, TwoLevels([], [MERGED, TAIL]), 7, [], None)
    ensures LastWrite(s.history, U, 4) == None
    ensures Read(Db(s), U, 4) == Some(U2.value)
  {
    assert s.history[..3] == [A1, U2, U3];
    InputEntries([MERGED, TAIL], [A4, U2]);
    assert s.version[3] == [MERGED, TAIL];
    assert U2 in LevelEntries(s.version[3]) by { assert U2 in ToSet([A4, U2]); }
    forall l, e | 0 <= l < NUM_LEVELS && e in LevelEntries(s.version[l])
      ensures e in [A4, U2]
    {
      assert l == 3;
      assert e in ToSet([A4, U2]);
    }
    assert IsNewest(Db(s), U, 4, U2);
    assert UniqueSeqnos(Db(s));
    ReadIs(Db(s), U, 4, U2);
  }
}
