/** The database object (DBImpl in db/db_impl.cc): fields that change under the mutex, and
    methods that carry out the steps of the state machine. */
module DbImpl {
  import opened Wrappers
  import opened DbFormat
  import Sequences
  import opened MultiVersionMap
  import opened Tables
  import opened Versions
  import opened KeyRanges
  import opened VersionEdits
  import opened MemTableOutput
  import opened CompactionInputs
  import opened VersionSets
  import opened CompactionWork
  import opened CompactionReads
  import opened Engine
  import opened EngineWrites
  import opened EngineFlush
  import opened EngineCompaction
  import opened EngineFinish
  import opened EngineRuns
  import opened InputIterators

  class DBImpl {
    const versions: VersionSet
    var mem: seq<Entry>
    var imm: Option<seq<Entry>>
    var lastSequence: nat
    var nextFile: nat
    var snapshots: seq<nat>
    var job: Option<Job>
    ghost var history: seq<Entry>
    ghost var applied: nat

    ghost function Abs(): State
      reads this, versions
    {
      State(history, applied, lastSequence, mem, imm, versions.current, nextFile, snapshots, job)
    }

    ghost predicate Valid()
      reads this, versions
    {
      && versions.Valid()
      && Structure(Abs())
      && (job.Some? ==> ValidVersion(job.value.inputVersion) && job.value.inputs.upper != [])
      && applied == lastSequence == |history|
    }

    constructor ()
      ensures Valid() && fresh(versions) && Init(Abs())
    {
      versions := new VersionSet();
      mem, imm, lastSequence, nextFile, snapshots, job := [], None, 0, 2, [], None;
      history, applied := [], 0;
      new;
      InitEstablishes(Abs());
    }

    /** DBImpl::Get at a snapshot: memtable, then the immutable one, then the files.  In a
        run whose compactions start closed this is the last write of the key. */
    method Get(u: UserKey, snapshot: nat) returns (r: Option<Bytes>)
      requires Valid()
      ensures r == Read(Db(Abs()), u, snapshot)
      ensures ReadersServed(Abs()) && IsReader(Abs(), snapshot) ==> r == LastWrite(history, u, snapshot)
    {
      hide ProbeRun, Answers, Read, LastWrite, VersionOk, ReadOrder, JobOk, JobReadsOk, NumbersBelow, PendingInMem,
        UniqueSeqnos, VersionEntries;
      WritesAreUnique(Db(Abs()), history, applied);
      var p := ProbeRun(mem, u, snapshot);
      ProbeFindsNewest(mem, u, snapshot);
      if p.NotFound? && imm.Some? {
        p := ProbeRun(imm.value, u, snapshot);
        ProbeFindsNewest(imm.value, u, snapshot);
      }
      AnswersUnion(ToSet(mem), ImmEntries(Abs()), u, snapshot, ProbeRun(mem, u, snapshot), p);
      ghost var buffered := ToSet(mem) + ImmEntries(Abs());
      if p.NotFound? {
        UniqueSubset(Db(Abs()), VersionEntries(versions.current));
        r := Versions.Get(versions.current, u, snapshot);
        ReadSkips(buffered, VersionEntries(versions.current), u, snapshot);
      } else {
        r := ProbeValue(p);
        ReadStops(buffered, VersionEntries(versions.current), u, snapshot, p);
      }
    }

    /** What holds between the steps of a write. */
    ghost predicate Writing()
      reads this, versions
    {
      versions.Valid() && Structure(Abs()) && (job.Some? ==> ValidVersion(job.value.inputVersion) && job.value.inputs.upper != [])
    }

    /** MemTableInserter: one operation of the batch. */
    method Insert(op: Operation, sequence: nat)
      requires Writing() && applied < |history|
      requires history[applied] == Entry(InternalKey(op.user, sequence, op.vtype), op.value)
      modifies this`mem, this`applied
      ensures Writing()
      ensures mem == InsertSorted(old(mem), old(history[applied])) && applied == old(applied) + 1
      ensures old(ReadersServed(Abs())) ==> ReadersServed(Abs())
    {
      hide Structure, ReadersServed, ValidVersion;
      mem := InsertSorted(mem, Entry(InternalKey(op.user, sequence, op.vtype), op.value));
      applied := applied + 1;
      InsertOneKeeps(old(Abs()), InsertOne, Abs());
    }

    /** InsertInto: all operations of the batch, numbered from `first`. */
    method InsertInto(batch: seq<Operation>, first: nat)
      requires Writing() && applied + |batch| == |history| && first == applied + 1
      requires history[applied..] == Numbered(batch, first)
      modifies this`mem, this`applied
      ensures Writing()
      ensures mem == InsertAll(old(mem), Numbered(batch, first)) && applied == |history|
      ensures old(ReadersServed(Abs())) ==> ReadersServed(Abs())
    {
      hide Structure, ReadersServed, ValidVersion;
      ghost var es := Numbered(batch, first);
      var sequence := first;
      assert es[..0] == [];
      for i := 0 to |batch|
        invariant Writing() && applied == old(applied) + i && sequence == first + i
        invariant mem == InsertAll(old(mem), es[..i])
        invariant old(ReadersServed(Abs())) ==> ReadersServed(Abs())
      {
        NextOfBatch(old(mem), history, old(applied), es, i);
        Insert(batch[i], sequence);
        sequence := sequence + 1;
      }
      Sequences.WholeSlice(es);
    }

    /** The group is numbered and logged. */
    ghost method Log(batch: seq<Operation>)
      requires Valid() && lastSequence + |batch| < MAX_SEQUENCE && batch != []
      modifies this`history
      ensures Writing()
      ensures history == old(history) + Numbered(batch, lastSequence + 1)
      ensures applied + |batch| == |history| && history[applied..] == Numbered(batch, lastSequence + 1)
      ensures old(ReadersServed(Abs())) ==> ReadersServed(Abs())
    {
      hide Structure, ReadersServed, ValidVersion;
      AppendedSuffix(history, Numbered(batch, lastSequence + 1));
      history := history + Numbered(batch, lastSequence + 1);
      BeginWriteKeeps(old(Abs()), BeginWrite(batch), Abs());
    }

    /** SetLastSequence: readers see the whole group at once. */
    method SetLastSequence(sequence: nat)
      requires Writing() && applied == |history| == sequence
      modifies this`lastSequence
      ensures Valid() && lastSequence == sequence
      ensures old(ReadersServed(Abs())) ==> ReadersServed(Abs())
    {
      hide Structure, ReadersServed, ValidVersion;
      lastSequence := sequence;
      PublishKeeps(old(Abs()), Publish, Abs());
    }

    /** Log the group and insert it, before readers may see it. */
    method LogAndInsert(batch: seq<Operation>)
      requires Valid() && lastSequence + |batch| < MAX_SEQUENCE && batch != []
      modifies this`history, this`mem, this`applied
      ensures Writing() && applied == |history| == lastSequence + |batch|
      ensures history == old(history) + Numbered(batch, lastSequence + 1)
      ensures mem == InsertAll(old(mem), Numbered(batch, lastSequence + 1))
      ensures old(ReadersServed(Abs())) ==> ReadersServed(Abs())
    {
      hide Structure, ReadersServed, ValidVersion;
      var first := lastSequence + 1;
      ghost var es := Numbered(batch, first);
      Log(batch);
      assert lastSequence + 1 == first;
      assert history == old(history) + es;
      InsertInto(batch, first);
      assert history == old(history) + es && mem == InsertAll(old(mem), es);
    }

    /** DBImpl::Write of one group: number the operations, insert them one by one into the
        memtable, then publish them all at once. */
    method Write(batch: seq<Operation>)
      requires Valid() && lastSequence + |batch| < MAX_SEQUENCE && batch != []
      modifies this`history, this`mem, this`applied, this`lastSequence
      ensures Valid()
      ensures history == old(history) + Numbered(batch, old(lastSequence) + 1)
      ensures mem == InsertAll(old(mem), Numbered(batch, old(lastSequence) + 1))
      ensures old(ReadersServed(Abs())) ==> ReadersServed(Abs())
    {
      hide Structure, ReadersServed, ValidVersion;
      LogAndInsert(batch);
      SetLastSequence(lastSequence + |batch|);
    }

    /** MakeRoomForWrite, when the memtable is full and no other one waits to be flushed. */
    method SwitchMemTable()
      requires Valid() && imm.None?
      modifies this`mem, this`imm
      ensures Valid() && Next(old(Abs()), Step.SwitchMemTable, Abs())
      ensures old(ReadersServed(Abs())) ==> ReadersServed(Abs())
    {
      hide Structure, ReadersServed, ValidVersion;
      imm := Some(mem);
      mem := [];
      SwitchKeeps(old(Abs()), Step.SwitchMemTable, Abs());
    }

    method GetSnapshot() returns (snapshot: nat)
      requires Valid()
      modifies this`snapshots
      ensures Valid() && Next(old(Abs()), Step.GetSnapshot, Abs())
      ensures snapshot == lastSequence && IsReader(Abs(), snapshot)
      ensures old(ReadersServed(Abs())) ==> ReadersServed(Abs())
    {
      hide Structure, ReadersServed, ValidVersion;
      snapshot := lastSequence;
      snapshots := snapshots + [snapshot];
      assert snapshots[|snapshots| - 1] == snapshot;
      SnapshotKeeps(old(Abs()), Step.GetSnapshot, Abs());
    }

    method ReleaseSnapshot(index: nat)
      requires Valid() && index < |snapshots|
      modifies this`snapshots
      ensures Valid() && Next(old(Abs()), Step.ReleaseSnapshot(index), Abs())
      ensures old(ReadersServed(Abs())) ==> ReadersServed(Abs())
    {
      hide Structure, ReadersServed, ValidVersion;
      snapshots := snapshots[..index] + snapshots[index + 1..];
      SnapshotKeeps(old(Abs()), Step.ReleaseSnapshot(index), Abs());
    }

    /** VersionSet::LogAndApply: fold one edit into the current version and make it current. */
    method LogAndApply(edit: VersionEdit)
      requires versions.Valid() && ValidEdit(edit) && VersionOk(versions.current)
      requires forall l :: 0 <= l < NUM_LEVELS ==>
        DisjointNumbers(versions.current[l], ApplyLevel(LevelState({}, []), edit, l).added)
      modifies versions`current
      ensures Installed(old(versions.current), edit, versions.current)
    {
      var builder := new Builder(versions.current);
      builder.Apply(edit);
      assert forall l :: 0 <= l < NUM_LEVELS ==> builder.Level(l) == ApplyLevel(LevelState({}, []), edit, l);
      assert forall l :: 0 <= l < NUM_LEVELS ==> builder.added[l] == builder.Level(l).added;
      var v := builder.SaveTo();
      versions.current := v;
    }

    /** CompactMemTable: write the immutable memtable to a file of the level that
        PickLevelForMemTableOutput chooses, even while a compaction is running. */
    method CompactMemTable(size: nat, maxGrandParentBytes: nat) returns (ghost step: Step)
      requires Valid() && imm.Some?
      modifies this`imm, this`nextFile, versions`current
      ensures Valid() && imm.None?
      ensures (step.Flush? || step.FlushEmpty?) && Next(old(Abs()), step, Abs())
      ensures nextFile == old(nextFile) + 1
      ensures step.Flush? ==>
        && step.file.number == old(nextFile) && step.file.size == size
        && OutputLevel(old(versions.current), step.file.smallest.user, step.file.largest.user, maxGrandParentBytes, step.level)
      ensures old(ReadersServed(Abs())) ==> ReadersServed(Abs())
    {
      hide Structure, ReadersServed, ValidVersion, VersionOk, Installed;
      ghost var before := Abs();
      var number := nextFile;
      nextFile := nextFile + 1;
      if imm.value == [] {
        imm := None;
        step := FlushEmpty;
        SwitchKeeps(before, step, Abs());
      } else {
        var f := MakeFile(number, size, imm.value);
        CurrentIsOk(before);
        var level := PickLevelForMemTableOutput(versions.current, f.smallest.user, f.largest.user, maxGrandParentBytes);
        var edit := VersionEdit({}, [(level, f)]);
        FlushEditApplies(before, level, f);
        LogAndApply(edit);
        imm := None;
        step := Flush(level, f);
        FlushKeeps(before, step, Abs());
        CurrentIsOk(Abs());
      }
    }

    /** BackgroundCompaction, once no memtable waits: pick inputs, and either move the one
        file there is to the next level or start to merge. */
    method BackgroundCompaction(trigger: Trigger, expandedLimit: nat, maxGrandParentBytes: nat)
      returns (ghost step: Option<Step>)
      requires Valid() && imm.None? && job.None? && ValidTrigger(versions.current, trigger)
      modifies this`job, versions
      ensures Valid()
      ensures trigger.NoTrigger? ==> step.None? && Abs() == old(Abs())
      ensures !trigger.NoTrigger? ==>
        step.Some? && (step.value.TrivialMove? || step.value.StartCompaction?) && Next(old(Abs()), step.value, Abs())
      ensures step.Some? ==>
        IsBackgroundStep(old(Abs()), old(versions.compactPointer), trigger, expandedLimit, maxGrandParentBytes, step.value)
      ensures step.Some? ==>
        versions.compactPointer == old(versions.compactPointer)[trigger.level := Some(LargestKey(step.value.inputs.upper))]
      ensures job.Some? ==> GapFree(job.value.inputs.All())
      ensures old(ReadersServed(Abs())) && (step.Some? ==> StartsClosed(old(Abs()), step.value)) ==> ReadersServed(Abs())
    {
      hide Structure, ReadersServed, ValidVersion, VersionOk, Installed, ValidInputs, GapFree;
      ghost var before := Abs();
      CurrentIsOk(before);
      var picked := versions.PickCompaction(trigger, expandedLimit);
      step := None;
      if picked.Some? {
        if IsTrivialMove(versions.current, picked.value, maxGrandParentBytes) {
          Move(picked.value);
          step := Some(TrivialMove(picked.value));
        } else {
          Start(picked.value);
          step := Some(Step.StartCompaction(picked.value));
        }
      }
    }

    /** A manual compaction merges even a single file. */
    method ManualCompaction(level: nat, begin: Option<UserKey>, end: Option<UserKey>, maxFileSize: nat, expandedLimit: nat)
      returns (ghost step: Option<Step>)
      requires Valid() && imm.None? && job.None? && level + 1 < NUM_LEVELS
      modifies this`job, versions
      ensures Valid()
      ensures step.None? <==> !SomeOverlap(old(versions.current[level]), begin, end)
      ensures step.None? ==> Abs() == old(Abs())
      ensures step.Some? ==>
        && step.value.StartCompaction? && Next(old(Abs()), step.value, Abs()) && step.value.inputs.level == level
        && IsManualChoice(old(versions.current), begin, end, maxFileSize, expandedLimit, step.value.inputs)
      ensures old(ReadersServed(Abs())) && (step.Some? ==> StartsClosed(old(Abs()), step.value)) ==> ReadersServed(Abs())
    {
      hide Structure, ReadersServed, ValidVersion, VersionOk, Installed, ValidInputs;
      ghost var before := Abs();
      CurrentIsOk(before);
      var picked := versions.CompactRange(level, begin, end, maxFileSize, expandedLimit);
      step := None;
      if picked.Some? {
        Start(picked.value);
        step := Some(Step.StartCompaction(picked.value));
      }
    }

    /** The start of DoCompactionWork, under the mutex. */
    method Start(c: Inputs)
      requires Valid() && job.None? && ValidInputs(versions.current, c)
      modifies this`job
      ensures Valid() && job.Some? && job.value.inputs == c
      ensures Next(old(Abs()), Step.StartCompaction(c), Abs())
      ensures old(ReadersServed(Abs())) && StartsClosed(old(Abs()), Step.StartCompaction(c)) ==> ReadersServed(Abs())
    {
      assert c.upper != [];
      hide Structure, ReadersServed, VersionOk, ValidInputs;
      ghost var before := Abs();
      var smallest := if snapshots == [] then lastSequence else snapshots[0];
      job := Some(Job(c, smallest, versions.current));
      StartKeeps(before, Step.StartCompaction(c), Abs());
    }

    /** One input file and nothing below it to merge with. */
    method Move(c: Inputs)
      requires Valid() && job.None? && ValidInputs(versions.current, c) && |c.upper| == 1 && c.lower == []
      modifies versions`current
      ensures Valid() && Next(old(Abs()), TrivialMove(c), Abs())
      ensures old(ReadersServed(Abs())) ==> ReadersServed(Abs())
    {
      hide Structure, ReadersServed, ValidVersion, VersionOk, Installed, ValidInputs;
      ghost var before := Abs();
      CurrentIsOk(before);
      var edit := VersionEdit({(c.level, c.upper[0].number)}, [(c.level + 1, c.upper[0])]);
      MoveEditApplies(before, c);
      LogAndApply(edit);
      TrivialMoveKeeps(before, TrivialMove(c), Abs());
      CurrentIsOk(Abs());
    }

    /** DoCompactionWork and InstallCompactionResults.  The levels are in order afterwards
        exactly when the outputs fit between the files around them.  `written` and `size` are
        the bytes of a table that holds some entries, unfinished and finished. */
    method FinishCompaction(maxOverlap: nat, maxFileSize: nat, written: seq<Entry> -> nat, size: seq<Entry> -> nat)
      returns (ghost step: Step)
      requires Valid() && job.Some?
      modifies this`job, this`nextFile, versions`current
      ensures job.None? && (Valid() <==> FinishFits(old(Abs()), step))
      ensures step.FinishCompaction? && Next(old(Abs()), step, Abs())
      ensures nextFile == old(nextFile) + |step.outputs| && ValidOutputs(step.outputs, old(nextFile))
      ensures IsCutAt(step.input, old(job.value), maxOverlap, maxFileSize, written, size, step.outputs)
      ensures Db(Abs()) == old(Db(Abs())) - DroppedBy(old(Abs()), step)
      ensures old(ReadersServed(Abs())) && Valid() ==> ReadersServed(Abs())
    {
      hide Structure, ReadersServed, VersionOk, Installed, Kept, ValidFiles, Cuts;
      ghost var before := Abs();
      var j := job.value;
      JobInputsReadable(before);
      var input := ReadInputs(j.inputs);
      var cursor := new BaseLevelCursor(j.inputVersion, j.inputs.level);
      var lim := Limits(Grandparents(j.inputVersion, j.inputs), maxOverlap, maxFileSize, written, size);
      var outputs := DoCompactionWork(cursor, input, j.smallest, lim, nextFile);
      step := Step.FinishCompaction(input, outputs);
      FinishEditApplies(before, outputs);
      nextFile := nextFile + |outputs|;
      LogAndApply(FinishEdit(j.inputs, outputs));
      job := None;
      Finished(before, step, Abs());
    }
  }

  /** The outputs of a compaction are cut where its limits say. */
  ghost predicate IsCutAt(input: seq<Entry>, j: Job, maxOverlap: nat, maxFileSize: nat, written: seq<Entry> -> nat,
                          size: seq<Entry> -> nat, outputs: seq<File>)
  {
    j.inputs.All() != [] &&
    var lim := Limits(Grandparents(j.inputVersion, j.inputs), maxOverlap, maxFileSize, written, size);
    && FileEntries(outputs) == Closed(Cuts(input, |input|, j.smallest, j.inputVersion, j.inputs.level, lim)).closed
    && forall k :: 0 <= k < |outputs| ==> outputs[k].size == size(outputs[k].entries)
  }

  /** What PickCompaction returns: the choice for the file that is next in turn, or for the
      one with too many seeks. */
  ghost predicate IsPickedFor(v: Version, pointers: seq<Option<InternalKey>>, t: Trigger, expandedLimit: nat, c: Inputs)
  {
    && c.level + 1 < NUM_LEVELS && !t.NoTrigger? && c.level == t.level && t.level < |pointers|
    && (t.TooManySeeks? ==> IsChoiceFor(v, t.file, expandedLimit, c))
    && (t.TooMuchData? ==>
      exists i: nat :: NextInTurn(v[t.level], pointers[t.level], i) && IsChoiceFor(v, v[t.level][i], expandedLimit, c))
  }

  /** Of the chosen files, one is moved if it is alone and overlaps few bytes two levels
      below; otherwise a compaction starts. */
  ghost predicate IsBackgroundStep(s: State, pointers: seq<Option<InternalKey>>, t: Trigger, expandedLimit: nat,
                                   maxGrandParentBytes: nat, step: Step)
  {
    && (step.TrivialMove? || step.StartCompaction?)
    && IsPickedFor(s.version, pointers, t, expandedLimit, step.inputs)
    && step.inputs.upper != []
    && (step.TrivialMove? <==>
      && |step.inputs.upper| == 1 && |step.inputs.lower| == 0
      && TotalFileSize(Grandparents(s.version, step.inputs)) <= maxGrandParentBytes)
  }

  /** Compaction::IsTrivialMove. */
  predicate IsTrivialMove(v: Version, c: Inputs, maxGrandParentBytes: nat)
    requires c.All() != []
  {
    |c.upper| == 1 && |c.lower| == 0 && TotalFileSize(Grandparents(v, c)) <= maxGrandParentBytes
  }

  lemma MoveEditApplies(s: State, c: Inputs)
    requires Structure(s) && ValidInputs(s.version, c) && |c.upper| == 1
    ensures var e := VersionEdit({(c.level, c.upper[0].number)}, [(c.level + 1, c.upper[0])]);
      ValidEdit(e) && forall l :: 0 <= l < NUM_LEVELS ==>
        DisjointNumbers(s.version[l], ApplyLevel(LevelState({}, []), e, l).added)
  {
    CurrentIsOk(s);
    hide Structure, UpperClosed;
    var e := VersionEdit({(c.level, c.upper[0].number)}, [(c.level + 1, c.upper[0])]);
    assert c.upper[0] in c.upper;
    NewBelow(s.version, c.level, c.upper[0]);
    hide VersionOk, ValidInputs;
    forall l | 0 <= l < NUM_LEVELS
      ensures DisjointNumbers(s.version[l], ApplyLevel(LevelState({}, []), e, l).added)
    {
      AddAllMembers(LevelState({} + DeletedAt(e, l), []), e.newFiles, l);
    }
  }

  /** The number of a file is not in use in the next level. */
  lemma NewBelow(v: Version, level: nat, f: File)
    requires VersionOk(v) && level + 1 < NUM_LEVELS && f in v[level]
    ensures forall g :: g in v[level + 1] ==> g.number != f.number
  {
    assert DisjointNumbers(v[level], v[level + 1]);
  }

  lemma JobInRange(s: State)
    requires Structure(s) && s.job.Some?
    ensures s.job.value.inputs.level + 1 < NUM_LEVELS
  {
  }

  /** Files with numbers from `next` on are new to the version. */
  lemma OutputsAreNew(v: Version, outputs: seq<File>, next: nat)
    requires NumbersBelow(v, next) && ValidOutputs(outputs, next)
    ensures FreshNumbers(v, outputs, next + |outputs|) && ValidFiles(outputs)
    ensures forall f :: f in outputs ==> f.number >= next
    ensures forall l, f, g :: 0 <= l < NUM_LEVELS && f in v[l] && g in outputs ==> f.number != g.number
  {
  }

  lemma PartReadable(v: Version, c: Inputs)
    requires VersionOk(v) && ReadOrder(v) && UniqueSeqnos(VersionEntries(v)) && InputsInOrder(c)
    requires c.level + 1 < NUM_LEVELS && SubList(c.upper, v[c.level]) && SubList(c.lower, v[c.level + 1])
    ensures InputsReadable(c)
  {
    hide FilesSorted, DisjointNumbers, LevelSorted, DistinctNumbers;
    assert ValidFiles(v[c.level]) && ValidFiles(v[c.level + 1]);
    SubListValid(c.upper, v[c.level]);
    SubListValid(c.lower, v[c.level + 1]);
    SubListEntries(c.upper, v[c.level]);
    SubListEntries(c.lower, v[c.level + 1]);
    LevelEntriesConcat(c.upper, c.lower);
    assert Above(LevelEntries(v[c.level]), LevelEntries(v[c.level + 1]));
    LevelsStored(v, c.level);
    LevelsStored(v, c.level + 1);
    UniqueSubset(VersionEntries(v), LevelEntries(c.All()));
    if c.level == 0 {
      assert NewestNumberAbove(c.upper);
    }
  }

  /** The inputs of a running compaction can be merged. */
  lemma JobInputsReadable(s: State)
    requires Structure(s) && s.job.Some?
    ensures InputsReadable(s.job.value.inputs)
  {
    WritesAreUnique(Db(s), s.history, s.applied);
    UniqueSubset(Db(s), VersionEntries(s.version));
    hide VersionOk, ReadOrder, InputsInOrder;
    PartReadable(s.version, s.job.value.inputs);
  }

  lemma FinishEditApplies(s: State, outputs: seq<File>)
    requires Structure(s) && s.job.Some? && ValidOutputs(outputs, s.nextFile)
    ensures ValidEdit(FinishEdit(s.job.value.inputs, outputs))
    ensures FreshNumbers(s.version, outputs, s.nextFile + |outputs|)
    ensures VersionOk(s.version) && ValidFiles(outputs)
    ensures forall l :: 0 <= l < NUM_LEVELS ==>
      DisjointNumbers(s.version[l], ApplyLevel(LevelState({}, []), FinishEdit(s.job.value.inputs, outputs), l).added)
  {
    CurrentIsOk(s);
    JobInRange(s);
    hide Structure;
    OutputsAreNew(s.version, outputs, s.nextFile);
    hide ValidOutputs, VersionOk;
    var c := s.job.value.inputs;
    var e := FinishEdit(c, outputs);
    forall l | 0 <= l < NUM_LEVELS
      ensures DisjointNumbers(s.version[l], ApplyLevel(LevelState({}, []), e, l).added)
    {
      NewAtLevel(c.level + 1, outputs, l);
      AddAllMembers(LevelState({} + DeletedAt(e, l), []), e.newFiles, l);
    }
  }

  lemma Finished(s: State, step: Step, t: State)
    requires Structure(s) && step.FinishCompaction? && Next(s, step, t)
    ensures Structure(t) <==> FinishFits(s, step)
    ensures Structure(t) ==> ValidVersion(t.version)
    ensures Db(t) == Db(s) - DroppedBy(s, step)
    ensures ReadersServed(s) && Structure(t) ==> ReadersServed(t)
  {
    FinishKeepsStructureIff(s, step, t);
    FinishTakesDropped(s, step, t);
    if FinishFits(s, step) {
      FinishKeepsStructure(s, step, t);
      if ReadersServed(s) {
        FinishKeeps(s, step, t);
      }
    }
  }

  /** The current version meets what the code takes for granted about it. */
  lemma CurrentIsOk(s: State)
    requires Structure(s)
    ensures VersionOk(s.version) && ValidVersion(s.version) && BoundedKeys(s.version)
    ensures NumbersBelow(s.version, s.nextFile)
  {
    forall l, f | 0 <= l < NUM_LEVELS && f in s.version[l]
      ensures f.largest.seqno <= MAX_SEQUENCE
    {
      assert ValidFiles(s.version[l]);
      var e := f.entries[|f.entries| - 1];
      assert e in f.entries;
      assert e in LevelEntries(s.version[l]);
      assert e in Db(s);
    }
  }

  /** A file with a new number can be added to any level. */
  lemma FlushEditApplies(s: State, level: nat, f: File)
    requires Structure(s) && s.nextFile <= f.number && level < NUM_LEVELS
    ensures ValidEdit(VersionEdit({}, [(level, f)]))
    ensures forall l :: 0 <= l < NUM_LEVELS ==>
      DisjointNumbers(s.version[l], ApplyLevel(LevelState({}, []), VersionEdit({}, [(level, f)]), l).added)
  {
    var e := VersionEdit({}, [(level, f)]);
    forall l | 0 <= l < NUM_LEVELS
      ensures DisjointNumbers(s.version[l], ApplyLevel(LevelState({}, []), e, l).added)
    {
      AddAllMembers(LevelState({} + DeletedAt(e, l), []), e.newFiles, l);
    }
  }

  lemma NextOfBatch(mem: seq<Entry>, history: seq<Entry>, applied: nat, es: seq<Entry>, i: nat)
    requires applied <= |history| && history[applied..] == es && i < |es|
    ensures history[applied + i] == es[i]
    ensures InsertAll(mem, es[..i + 1]) == InsertSorted(InsertAll(mem, es[..i]), es[i])
  {
    assert history[applied..][i] == history[applied + i];
    assert es[..i + 1][..i] == es[..i];
  }

  lemma AppendedSuffix(history: seq<Entry>, es: seq<Entry>)
    ensures (history + es)[|history|..] == es
  {
  }

  /** The memtable after a batch. */
  function InsertAll(mem: seq<Entry>, es: seq<Entry>): seq<Entry> {
    if es == [] then mem else InsertSorted(InsertAll(mem, es[..|es| - 1]), es[|es| - 1])
  }

  /** Nothing in the newer data: the older data decides. */
  lemma ReadSkips(a: set<Entry>, b: set<Entry>, u: UserKey, s: nat)
    requires UniqueSeqnos(a + b) && Answers(a, u, s, NotFound)
    ensures Read(a + b, u, s) == Read(b, u, s)
  {
    if n :| IsNewest(b, u, s, n) {
      assert IsNewest(a + b, u, s, n);
      ReadIs(a + b, u, s, n);
      ReadIs(b, u, s, n);
    } else {
      ReadAbsentIfNoNewest(b, u, s);
      ReadAbsent(b, u, s);
      ReadAbsent(a + b, u, s);
    }
  }

  lemma ReadStops(a: set<Entry>, b: set<Entry>, u: UserKey, s: nat, p: Probe)
    requires UniqueSeqnos(a + b) && Above(a, b) && Answers(a, u, s, p) && !p.NotFound?
    ensures Read(a + b, u, s) == ProbeValue(p)
  {
    AnswersUnion(a, b, u, s, p, p);
    AnswersRead(a + b, u, s, p);
  }
}
