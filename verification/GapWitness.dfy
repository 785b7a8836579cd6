/** A memtable flushed into a gap of a running manual compaction is lost to readers. */
module GapWitness {
  import opened Wrappers
  import opened DbFormat
  import opened MultiVersionMap
  import opened Tables
  import opened Versions
  import opened KeyRanges
  import opened VersionEdits
  import opened MemTableOutput
  import opened CompactionInputs
  import opened CompactionWork
  import opened Engine
  import opened EngineFinish
  import opened EngineRuns
  import opened EngineWitnesses

  /** Like `Reachable`, without asking where memtables land. */
  ghost predicate Possible(s: State) {
    exists states, steps :: IsTrace(states, steps) && states[|steps|] == s
  }

  lemma StartPossible(s: State)
    requires Init(s)
    ensures Possible(s)
  {
    assert IsTrace([s], []);
  }

  lemma StepPossible(s: State, step: Step, t: State)
    requires Possible(s) && Next(s, step, t)
    ensures Possible(t)
  {
    var states, steps :| IsTrace(states, steps) && states[|steps|] == s;
    var states2, steps2 := states + [t], steps + [step];
    forall i | 0 <= i < |steps2|
      ensures Next(states2[i], steps2[i], states2[i + 1])
    {
      if i < |steps| {
        assert states2[i] == states[i] && states2[i + 1] == states[i + 1] && steps2[i] == steps[i];
      }
    }
    assert IsTrace(states2, steps2);
  }

  /** A version with files in levels 1 and 2 only. */
  function OneTwo(one: seq<File>, two: seq<File>): Version {
    [[], one, two, [], [], [], []]
  }

  ghost predicate Quiet(s: State, one: seq<File>, two: seq<File>) {
    && s.version == OneTwo(one, two)
    && s.mem == [] && s.imm.None? && s.snapshots == []
    && s.lastSequence == s.applied == |s.history|
  }

  function PutEntry(u: UserKey, n: nat): Entry {
    Entry(InternalKey(u, n, Value), [])
  }

  /** The file that a memtable with one write becomes. */
  function OneWrite(number: nat, u: UserKey, n: nat): File {
    MakeFile(number, 0, [PutEntry(u, n)])
  }

  lemma EditedOneTwo(one: seq<File>, two: seq<File>, e: VersionEdit, one2: seq<File>, two2: seq<File>)
    requires EditedLevel(one, e, 1, one2) && EditedLevel(two, e, 2, two2)
    requires DistinctNew(e.newFiles, 1) && DistinctNew(e.newFiles, 2)
    requires forall i :: 0 <= i < |e.newFiles| ==> e.newFiles[i].0 == 1 || e.newFiles[i].0 == 2
    requires forall f, g :: f in one && (1, g) in e.newFiles ==> f.number != g.number
    requires forall f, g :: f in two && (2, g) in e.newFiles ==> f.number != g.number
    ensures Installed(OneTwo(one, two), e, OneTwo(one2, two2))
  {
    var v, v2 := OneTwo(one, two), OneTwo(one2, two2);
    forall l | 0 <= l < NUM_LEVELS
      ensures SavedLevel(v[l], ApplyLevel(LevelState({}, []), e, l), v2[l])
    {
      if l == 1 {
        EditedIsSaved(one, e, 1, one2);
      } else if l == 2 {
        EditedIsSaved(two, e, 2, two2);
      } else {
        assert v[l] == [] && v2[l] == [];
        EditedIsSaved([], e, l, []);
      }
    }
  }

  lemma PutPossible(s: State, u: UserKey, one: seq<File>, two: seq<File>) returns (t: State)
    requires Possible(s) && Quiet(s, one, two) && |s.history| < 100
    ensures Possible(t)
    ensures var e := PutEntry(u, s.lastSequence + 1);
      t == s.(history := s.history + [e], applied := s.applied + 1, lastSequence := s.lastSequence + 1, imm := Some([e]))
  {
    var e := PutEntry(u, s.lastSequence + 1);
    var op := Operation(Value, u, []);
    assert Numbered([op], s.lastSequence + 1) == [e];
    var s1 := s.(history := s.history + [e]);
    StepPossible(s, BeginWrite([op]), s1);
    assert InsertSorted([], e) == [e];
    var s2 := s1.(mem := [e], applied := s1.applied + 1);
    StepPossible(s1, InsertOne, s2);
    var s3 := s2.(lastSequence := s2.applied);
    StepPossible(s2, Publish, s3);
    t := s3.(imm := Some([e]), mem := []);
    StepPossible(s3, SwitchMemTable, t);
  }

  /** The level that the code picks for a file that touches level 2, or nothing at all. */
  lemma PickedLevel(one: seq<File>, two: seq<File>, u: UserKey)
    requires forall f :: f in one + two ==> f.size == 0
    requires !SomeOverlap(one, Some(u), Some(u))
    ensures OutputLevel(OneTwo(one, two), u, u, 0, if SomeOverlap(two, Some(u), Some(u)) then 1 else 2)
  {
    var v := OneTwo(one, two);
    assert v[0] == [] && v[1] == one && v[2] == two && v[3] == [] && v[4] == [];
    assert !OverlapInLevel(v, 0, u, u) && !OverlapInLevel(v, 1, u, u);
    OverlapsNothing(two, u);
    OverlapsNothing([], u);
    assert OverlapBytes(v, 2, u, u) == 0 && OverlapBytes(v, 3, u, u) == 0;
    assert !StopsAt(v, 0, u, u, 0);
    assert StopsAt(v, 1, u, u, 0) <==> SomeOverlap(two, Some(u), Some(u));
  }

  lemma {:induction false} OverlapsNothing(files: seq<File>, u: UserKey)
    requires forall f :: f in files ==> f.size == 0
    ensures TotalFileSize(OverlapFilter(files, Some(u), Some(u))) == 0
  {
    Weightless(OverlapFilter(files, Some(u), Some(u)));
  }

  lemma {:induction false} Weightless(files: seq<File>)
    requires forall f :: f in files ==> f.size == 0
    ensures TotalFileSize(files) == 0
  {
    if files != [] {
      Weightless(files[1..]);
    }
  }

  /** A write, and the flush of the memtable that holds it. */
  lemma PutFlushed(s: State, u: UserKey, one: seq<File>, two: seq<File>, one2: seq<File>, two2: seq<File>)
    returns (t: State)
    requires Possible(s) && Quiet(s, one, two) && |s.history| < 100
    requires forall f :: f in one + two ==> f.size == 0 && f.number < s.nextFile
    requires !SomeOverlap(one, Some(u), Some(u))
    requires FilesSorted(one2) && FilesSorted(two2)
    requires var f := OneWrite(s.nextFile, u, s.lastSequence + 1);
      var low := SomeOverlap(two, Some(u), Some(u));
      && (forall g :: g in one2 <==> g in one || (low && g == f))
      && (forall g :: g in two2 <==> g in two || (!low && g == f))
    ensures Possible(t) && Quiet(t, one2, two2)
    ensures t == s.(history := s.history + [PutEntry(u, s.lastSequence + 1)], applied := s.applied + 1,
                    lastSequence := s.lastSequence + 1, version := OneTwo(one2, two2), nextFile := s.nextFile + 1)
  {
    var f := OneWrite(s.nextFile, u, s.lastSequence + 1);
    var level := if SomeOverlap(two, Some(u), Some(u)) then 1 else 2;
    var e := VersionEdit({}, [(level, f)]);
    var s1 := PutPossible(s, u, one, two);
    t := s1.(imm := None, version := OneTwo(one2, two2), nextFile := s.nextFile + 1);
    PickedLevel(one, two, u);
    assert forall l, g :: (l, g) in e.newFiles ==> l == level && g == f;
    assert (level, f) in e.newFiles;
    EditedOneTwo(one, two, e, one2, two2);
    StepPossible(s1, Flush(level, f), t);
  }

  const A: UserKey := 0.0
  const B: UserKey := 1.0
  const C: UserKey := 2.0

  const MERGED := MakeFile(7, 0, [PutEntry(A, 3), PutEntry(C, 4)])

  lemma Touching(f: File, files: seq<File>, u: UserKey)
    requires f in files && CoversUserKey(f, u)
    ensures SomeOverlap(files, Some(u), Some(u))
  {
    assert Overlaps(f, Some(u), Some(u));
  }

  /** Two files in level 1 with a gap between them, and two below them in level 2. */
  lemma TwoPairs() returns (s: State)
    ensures Possible(s) && Quiet(s, [OneWrite(4, A, 3), OneWrite(5, C, 4)], [OneWrite(2, A, 1), OneWrite(3, C, 2)])
    ensures s.history == [PutEntry(A, 1), PutEntry(C, 2), PutEntry(A, 3), PutEntry(C, 4)]
    ensures s.nextFile == 6 && s.job.None?
  {
    hide Possible;
    var f2, f3, f4, f5 := OneWrite(2, A, 1), OneWrite(3, C, 2), OneWrite(4, A, 3), OneWrite(5, C, 4);
    var s0 := State([], 0, 0, [], None, EMPTY_VERSION, 2, [], None);
    StartPossible(s0);
    var s1 := PutFlushed(s0, A, [], [], [], [f2]);
    var s2 := PutFlushed(s1, C, [], [f2], [], [f2, f3]);
    Touching(f2, [f2, f3], A);
    var s3 := PutFlushed(s2, A, [], [f2, f3], [f4], [f2, f3]);
    Touching(f3, [f2, f3], C);
    s := PutFlushed(s3, C, [f4], [f2, f3], [f4, f5], [f2, f3]);
  }

  lemma BothOverlap(f: File, g: File, lo: Option<UserKey>, hi: Option<UserKey>)
    requires Overlaps(f, lo, hi) && Overlaps(g, lo, hi)
    ensures OverlapFilter([f, g], lo, hi) == [f, g]
  {
    assert [f, g][..1] == [f] && [f][..0] == [];
    assert OverlapFilter([f], lo, hi) == [f];
  }

  lemma RangeOfTwo(f: File, g: File)
    requires Less(f.smallest, g.smallest) && Less(f.largest, g.largest)
    ensures SmallestKey([f, g]) == f.smallest && LargestKey([f, g]) == g.largest
  {
    assert [f, g][..1] == [f];
    assert SmallestKey([f]) == f.smallest && LargestKey([f]) == f.largest;
  }

  /** All four files are what a manual compaction of everything in level 1 starts from. */
  lemma PairsAreInputs(f2: File, f3: File, f4: File, f5: File)
    requires f2 == OneWrite(2, A, 1) && f3 == OneWrite(3, C, 2) && f4 == OneWrite(4, A, 3) && f5 == OneWrite(5, C, 4)
    ensures ValidInputs(OneTwo([f4, f5], [f2, f3]), Inputs(1, [f4, f5], [f2, f3]))
  {
    var v := OneTwo([f4, f5], [f2, f3]);
    assert IsRun([f4, f5], 0, 2, [f4, f5]) && EndsUserKey([f4, f5], 2);
    RangeOfTwo(f4, f5);
    BothOverlap(f2, f3, Some(A), Some(C));
    assert v[1] == [f4, f5] && v[2] == [f2, f3];
  }

  lemma BetweenThePairs(f2: File, f3: File, f4: File, f5: File)
    requires f2 == OneWrite(2, A, 1) && f3 == OneWrite(3, C, 2) && f4 == OneWrite(4, A, 3) && f5 == OneWrite(5, C, 4)
    ensures !SomeOverlap([f4, f5], Some(B), Some(B)) && !SomeOverlap([f2, f3], Some(B), Some(B))
    ensures FilesSorted([f2, OneWrite(6, B, 5), f3])
  {
  }

  /** A manual compaction of both files of level 1 starts, and B is written and flushed. */
  lemma FlushedIntoGap() returns (s: State, j: Job)
    ensures Possible(s) && Quiet(s, [OneWrite(4, A, 3), OneWrite(5, C, 4)],
                                 [OneWrite(2, A, 1), OneWrite(6, B, 5), OneWrite(3, C, 2)])
    ensures s.history == [PutEntry(A, 1), PutEntry(C, 2), PutEntry(A, 3), PutEntry(C, 4), PutEntry(B, 5)]
    ensures s.nextFile == 7 && s.job == Some(j)
    ensures j.inputs == Inputs(1, [OneWrite(4, A, 3), OneWrite(5, C, 4)], [OneWrite(2, A, 1), OneWrite(3, C, 2)])
    ensures j.smallest == 4
  {
    hide Possible;
    var f2, f3, f4, f5 := OneWrite(2, A, 1), OneWrite(3, C, 2), OneWrite(4, A, 3), OneWrite(5, C, 4);
    var s4 := TwoPairs();
    var c := Inputs(1, [f4, f5], [f2, f3]);
    PairsAreInputs(f2, f3, f4, f5);
    j := Job(c, 4, s4.version);
    var s5 := s4.(job := Some(j));
    StepPossible(s4, StartCompaction(c), s5);
    BetweenThePairs(f2, f3, f4, f5);
    s := PutFlushed(s5, B, [f4, f5], [f2, f3], [f4, f5], [f2, OneWrite(6, B, 5), f3]);
  }

  lemma MergedCut(v: Version)
    ensures Kept([PutEntry(A, 3), PutEntry(A, 1), PutEntry(C, 4), PutEntry(C, 2)], 4, 4, v, 1) == Concat([MERGED])
  {
    var input := [PutEntry(A, 3), PutEntry(A, 1), PutEntry(C, 4), PutEntry(C, 2)];
    assert !Drops(input, 0, 4, v, 1) && Drops(input, 1, 4, v, 1) && !Drops(input, 2, 4, v, 1) && Drops(input, 3, 4, v, 1);
    assert Kept(input, 1, 4, v, 1) == [input[0]];
    assert Kept(input, 2, 4, v, 1) == [input[0]];
    assert Kept(input, 3, 4, v, 1) == [input[0], input[2]];
    assert Kept(input, 4, 4, v, 1) == [input[0], input[2]];
    ConcatSnoc([], MERGED);
  }

  /** The end of the compaction puts a file across the flushed one. */
  lemma MergedAcross() returns (s: State)
    ensures Possible(s) && s.job.None? && s.lastSequence == 5 && s.mem == [] && s.imm.None?
    ensures s.history == [PutEntry(A, 1), PutEntry(C, 2), PutEntry(A, 3), PutEntry(C, 4), PutEntry(B, 5)]
    ensures s.version == OneTwo([], [MERGED, OneWrite(6, B, 5)])
  {
    hide Possible;
    var f2, f3, f4, f5, f6 := OneWrite(2, A, 1), OneWrite(3, C, 2), OneWrite(4, A, 3), OneWrite(5, C, 4), OneWrite(6, B, 5);
    var s6, j := FlushedIntoGap();
    var c := j.inputs;
    var input := [PutEntry(A, 3), PutEntry(A, 1), PutEntry(C, 4), PutEntry(C, 2)];
    MergedInput(f2, f3, f4, f5);
    MergedCut(j.inputVersion);
    MergedEdit(f2, f3, f4, f5, f6);
    s := s6.(job := None, version := OneTwo([], [MERGED, f6]), nextFile := 8);
    MergedIsFresh(s6.version, f2, f3, f4, f5, f6);
    StepPossible(s6, FinishCompaction(input, [MERGED]), s);
  }

  lemma MergedIsFresh(v: Version, f2: File, f3: File, f4: File, f5: File, f6: File)
    requires v == OneTwo([f4, f5], [f2, f6, f3])
    requires f2.number < 7 && f3.number < 7 && f4.number < 7 && f5.number < 7 && f6.number < 7
    ensures FreshNumbers(v, [MERGED], 8)
  {
    assert forall l, g :: 0 <= l < NUM_LEVELS && g in v[l] ==> g in [f2, f3, f4, f5, f6];
  }

  lemma MergedInput(f2: File, f3: File, f4: File, f5: File)
    requires f2 == OneWrite(2, A, 1) && f3 == OneWrite(3, C, 2) && f4 == OneWrite(4, A, 3) && f5 == OneWrite(5, C, 4)
    ensures LevelEntries(Inputs(1, [f4, f5], [f2, f3]).All()) ==
      ToSet([PutEntry(A, 3), PutEntry(A, 1), PutEntry(C, 4), PutEntry(C, 2)])
  {
    var files := Inputs(1, [f4, f5], [f2, f3]).All();
    assert files == [f4, f5, f2, f3];
    forall e | e in [PutEntry(A, 3), PutEntry(A, 1), PutEntry(C, 4), PutEntry(C, 2)]
      ensures e in LevelEntries(files)
    {
      assert f2 in files && f3 in files && f4 in files && f5 in files;
      assert e in f2.entries || e in f3.entries || e in f4.entries || e in f5.entries;
    }
  }

  lemma MergedEdit(f2: File, f3: File, f4: File, f5: File, f6: File)
    requires f2 == OneWrite(2, A, 1) && f3 == OneWrite(3, C, 2) && f4 == OneWrite(4, A, 3) && f5 == OneWrite(5, C, 4)
    requires f6 == OneWrite(6, B, 5)
    ensures Installed(OneTwo([f4, f5], [f2, f6, f3]), FinishEdit(Inputs(1, [f4, f5], [f2, f3]), [MERGED]),
                      OneTwo([], [MERGED, f6]))
  {
    var c := Inputs(1, [f4, f5], [f2, f3]);
    var e := FinishEdit(c, [MERGED]);
    NewAtLevel(2, [MERGED], 1);
    NewAtLevel(2, [MERGED], 2);
    forall n: nat
      ensures (1, n) in e.deleted <==> n == 4 || n == 5
      ensures (2, n) in e.deleted <==> n == 2 || n == 3
    {
      DeletedAtUpper(c, n);
      DeletedAtLower(c, n);
      assert f4 in c.upper && f5 in c.upper && f2 in c.lower && f3 in c.lower;
    }
    assert FilesSorted([MERGED, f6]);
    EditedOneTwo([f4, f5], [f2, f6, f3], e, [], [MERGED, f6]);
  }

  /** A memtable flushed into a gap of a manual compaction is lost: B was written, is stored
      and is visible, but the files of level 2 overlap, and the file in which a reader of B
      looks, the first that does not end before B, does not hold it. */
  lemma GapLosesWrite() returns (s: State)
    ensures Possible(s) && IsReader(s, 5)
    ensures LastWrite(s.history, B, 5) == Some([]) == Read(Db(s), B, 5)
    ensures !LevelSorted(s.version[2])
    ensures LessEq(LookupKey(B, 5), s.version[2][0].largest) && ProbeRun(s.version[2][0].entries, B, 5) == NotFound
    ensures forall l :: 0 <= l < NUM_LEVELS && l != 2 ==> s.version[l] == []
  {
    hide Possible;
    s := MergedAcross();
    ReadOfB(s);
    assert MERGED.entries[1..] == [PutEntry(C, 4)];
    assert s.version[2] == [MERGED, OneWrite(6, B, 5)];
    assert !Less(s.version[2][0].largest, s.version[2][1].smallest);
  }

  /** The output that lies across the flushed file, seen by the exact condition. */
  lemma MergedDoesNotFit()
    ensures var f2, f3, f4, f5 := OneWrite(2, A, 1), OneWrite(3, C, 2), OneWrite(4, A, 3), OneWrite(5, C, 4);
      !OutputsFit(OneTwo([f4, f5], [f2, OneWrite(6, B, 5), f3]), Inputs(1, [f4, f5], [f2, f3]), [MERGED])
  {
    var f2, f3, f6 := OneWrite(2, A, 1), OneWrite(3, C, 2), OneWrite(6, B, 5);
    assert f6 in [f2, f6, f3] && f6 !in [f2, f3] && MERGED in [MERGED];
    assert !Less(f6.largest, MERGED.smallest) && !Less(MERGED.largest, f6.smallest) by {
      assert MERGED.entries[1] == PutEntry(C, 4);
    }
  }

  lemma ReadOfB(s: State)
    requires s.mem == [] && s.imm.None? && s.version == OneTwo([], [MERGED, OneWrite(6, B, 5)])
    requires s.history == [PutEntry(A, 1), PutEntry(C, 2), PutEntry(A, 3), PutEntry(C, 4), PutEntry(B, 5)]
    ensures LastWrite(s.history, B, 5) == Some([]) == Read(Db(s), B, 5)
  {
    var es := [PutEntry(A, 3), PutEntry(C, 4), PutEntry(B, 5)];
    assert s.version[2] == [MERGED, OneWrite(6, B, 5)];
    InputEntries(s.version[2], es);
    assert PutEntry(B, 5) in LevelEntries(s.version[2]) by {
      assert PutEntry(B, 5) in ToSet(es);
    }
    forall l, e | 0 <= l < NUM_LEVELS && e in LevelEntries(s.version[l])
      ensures e in es
    {
      assert l == 2;
      assert e in ToSet(es);
    }
    assert IsNewest(Db(s), B, 5, PutEntry(B, 5));
    ReadIs(Db(s), B, 5, PutEntry(B, 5));
  }
}
