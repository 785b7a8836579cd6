/** Every run of the engine, from the empty database. */
module EngineRuns {
  import opened Wrappers
  import opened DbFormat
  import opened MultiVersionMap
  import opened MemTableOutput
  import opened CompactionInputs
  import opened CompactionReads
  import opened Engine
  import opened EngineWrites
  import opened EngineFlush
  import opened EngineCompaction
  import opened EngineFinish

  ghost predicate IsTrace(states: seq<State>, steps: seq<Step>) {
    && |states| == |steps| + 1
    && Init(states[0])
    && forall i :: 0 <= i < |steps| ==> Next(states[i], steps[i], states[i + 1])
  }

  /** The outputs of every compaction fit between the files that it leaves in its lower level. */
  ghost predicate FinishesFit(states: seq<State>, steps: seq<Step>)
    requires |states| == |steps| + 1
  {
    forall i :: 0 <= i < |steps| ==> FinishFits(states[i], steps[i])
  }

  /** No memtable is flushed into the midst of what a running compaction reads. */
  ghost predicate FlushesApart(states: seq<State>, steps: seq<Step>)
    requires |states| == |steps| + 1
  {
    forall i :: 0 <= i < |steps| ==> FlushApart(states[i], steps[i])
  }

  /** Every compaction starts from files without a gap, as those of PickCompaction are. */
  ghost predicate StartsGapFree(steps: seq<Step>) {
    forall i :: 0 <= i < |steps| && steps[i].StartCompaction? ==> GapFree(steps[i].inputs.All())
  }

  /** Every compaction starts from lower files to which AddBoundaryInputs would add nothing. */
  ghost predicate StartsFromClosed(states: seq<State>, steps: seq<Step>)
    requires |states| == |steps| + 1
  {
    forall i :: 0 <= i < |steps| ==> StartsClosed(states[i], steps[i])
  }

  /** No compaction drops a deletion marker and leaves what it hides. */
  ghost predicate FinishesResurrectNothing(states: seq<State>, steps: seq<Step>)
    requires |states| == |steps| + 1
  {
    forall i :: 0 <= i < |steps| ==> ResurrectsNothingAt(states[i], steps[i])
  }

  ghost predicate ResurrectsNothingAt(s: State, step: Step) {
    step.FinishCompaction? && s.job.Some? ==>
      var j := s.job.value;
      ResurrectsNothing(Db(s), step.input, j.smallest, j.inputVersion, j.inputs.level)
  }

  lemma StepKeepsStructure(s: State, step: Step, t: State)
    requires Structure(s) && Next(s, step, t) && FinishFits(s, step)
    ensures Structure(t)
    ensures ReadersServed(s) && StartsClosed(s, step) ==> ReadersServed(t)
  {
    hide Structure, ReadersServed, Next;
    match step
    case BeginWrite(_) => BeginWriteKeeps(s, step, t);
    case InsertOne => InsertOneKeeps(s, step, t);
    case Publish => PublishKeeps(s, step, t);
    case SwitchMemTable => SwitchKeeps(s, step, t);
    case FlushEmpty => SwitchKeeps(s, step, t);
    case Flush(_, _) => FlushKeeps(s, step, t);
    case GetSnapshot => SnapshotKeeps(s, step, t);
    case ReleaseSnapshot(_) => SnapshotKeeps(s, step, t);
    case StartCompaction(_) => StartKeeps(s, step, t);
    case TrivialMove(_) => TrivialMoveKeeps(s, step, t);
    case FinishCompaction(_, _) =>
      FinishKeepsStructure(s, step, t);
      if ReadersServed(s) { FinishKeeps(s, step, t); }
  }

  /** Levels stay sorted and disjoint, and newer data is always found before older data. */
  lemma {:induction false} EveryRunKeepsStructure(states: seq<State>, steps: seq<Step>, n: nat)
    requires IsTrace(states, steps) && FinishesFit(states, steps) && n <= |steps|
    ensures Structure(states[n])
  {
    if n == 0 {
      InitEstablishes(states[0]);
    } else {
      EveryRunKeepsStructure(states, steps, n - 1);
      StepKeepsStructure(states[n - 1], steps[n - 1], states[n]);
    }
  }

  ghost predicate AllStructured(states: seq<State>) {
    forall i :: 0 <= i < |states| ==> Structure(states[i])
  }

  /** Exactly the runs whose outputs fit keep all levels sorted. */
  lemma RunsAreStructuredIff(states: seq<State>, steps: seq<Step>)
    requires IsTrace(states, steps)
    ensures AllStructured(states) <==> FinishesFit(states, steps)
  {
    hide Structure, Next, FinishFits;
    if FinishesFit(states, steps) {
      forall i | 0 <= i < |states|
        ensures Structure(states[i])
      {
        EveryRunKeepsStructure(states, steps, i);
      }
    }
    if AllStructured(states) {
      forall i | 0 <= i < |steps|
        ensures FinishFits(states[i], steps[i])
      {
        assert Next(states[i], steps[i], states[i + 1]) && Structure(states[i]) && Structure(states[i + 1]);
        StructuredStepFits(states[i], steps[i], states[i + 1]);
      }
    }
  }

  lemma StructuredStepFits(s: State, step: Step, t: State)
    requires Structure(s) && Structure(t) && Next(s, step, t)
    ensures FinishFits(s, step)
  {
    hide Structure;
    if step.FinishCompaction? {
      FinishKeepsStructureIff(s, step, t);
    }
  }

  // ---------- when outputs fit ----------

  /** The files that a running compaction leaves in its lower level lie beside all it reads. */
  ghost predicate JobApart(s: State) {
    s.job.Some? ==> LowerApart(s.version, s.job.value.inputs)
  }

  lemma ApartFinishFits(s: State, step: Step, t: State)
    requires Structure(s) && JobApart(s) && Next(s, step, t)
    ensures FinishFits(s, step)
  {
    if step.FinishCompaction? {
      var j := s.job.value;
      FinishReplaces(s.version, j, step.input, step.outputs, t.nextFile, t.version);
      ApartOutputsFit(s.version, j.inputs, step.outputs);
    }
  }

  lemma StepStaysApart(s: State, step: Step, t: State)
    requires Structure(s) && JobApart(s) && Next(s, step, t) && FlushApart(s, step)
    ensures JobApart(t)
  {
    hide Structure, LowerApart, FlushApart;
    if step.Flush? && s.job.Some? {
      FlushStaysApartIff(s, step, t);
    } else if step.StartCompaction? {
      StartKeeps(s, step, t);
    }
  }

  lemma {:induction false} ApartRun(states: seq<State>, steps: seq<Step>, n: nat)
    requires IsTrace(states, steps) && FlushesApart(states, steps) && n <= |steps|
    ensures Structure(states[n]) && JobApart(states[n])
  {
    hide Structure, Next, JobApart, FlushApart;
    if n == 0 {
      InitEstablishes(states[0]);
      NoJob(states[0]);
    } else {
      ApartRun(states, steps, n - 1);
      assert Next(states[n - 1], steps[n - 1], states[n - 1 + 1]) && FlushApart(states[n - 1], steps[n - 1]);
      ApartFinishFits(states[n - 1], steps[n - 1], states[n]);
      StepKeepsStructure(states[n - 1], steps[n - 1], states[n]);
      StepStaysApart(states[n - 1], steps[n - 1], states[n]);
    }
  }

  lemma NoJob(s: State)
    requires Init(s)
    ensures JobApart(s)
  {
  }

  /** If every flush stays beside the inputs of the compaction it meets, outputs fit. */
  lemma ApartFlushesFit(states: seq<State>, steps: seq<Step>)
    requires IsTrace(states, steps) && FlushesApart(states, steps)
    ensures FinishesFit(states, steps)
  {
    hide Structure, Next, JobApart, FinishFits, FlushApart;
    forall i | 0 <= i < |steps|
      ensures FinishFits(states[i], steps[i])
    {
      ApartRun(states, steps, i);
      assert Next(states[i], steps[i], states[i + 1]);
      ApartFinishFits(states[i], steps[i], states[i + 1]);
    }
  }

  ghost predicate JobGapFree(s: State) {
    s.job.Some? ==> GapFree(s.job.value.inputs.All())
  }

  lemma StepStaysGapFree(s: State, step: Step, t: State)
    requires JobGapFree(s) && Next(s, step, t) && (step.StartCompaction? ==> GapFree(step.inputs.All()))
    ensures JobGapFree(t)
  {
    hide GapFree;
  }

  /** Without manual compactions every flush stays beside. */
  lemma {:induction false} AutomaticRun(states: seq<State>, steps: seq<Step>, n: nat)
    requires IsTrace(states, steps) && StartsGapFree(steps) && n <= |steps|
    ensures Structure(states[n]) && JobApart(states[n]) && JobGapFree(states[n])
    ensures n < |steps| ==> FlushApart(states[n], steps[n])
  {
    hide Structure, Next, JobApart, JobGapFree, FlushApart;
    if n == 0 {
      InitEstablishes(states[0]);
      NoJob(states[0]);
      NoGap(states[0]);
    } else {
      AutomaticRun(states, steps, n - 1);
      assert Next(states[n - 1], steps[n - 1], states[n - 1 + 1]);
      ApartFinishFits(states[n - 1], steps[n - 1], states[n]);
      StepKeepsStructure(states[n - 1], steps[n - 1], states[n]);
      StepStaysApart(states[n - 1], steps[n - 1], states[n]);
      StepStaysGapFree(states[n - 1], steps[n - 1], states[n]);
    }
    if n < |steps| {
      assert Next(states[n], steps[n], states[n + 1]);
      FlushIsApart(states[n], steps[n], states[n + 1]);
    }
  }

  lemma NoGap(s: State)
    requires Init(s)
    ensures JobGapFree(s)
  {
  }

  lemma FlushIsApart(s: State, step: Step, t: State)
    requires Structure(s) && JobGapFree(s) && Next(s, step, t)
    ensures FlushApart(s, step)
  {
    hide Structure;
    if step.Flush? {
      GapFreeFlushIsApart(s, step, t);
    }
  }

  lemma AutomaticRunsFit(states: seq<State>, steps: seq<Step>)
    requires IsTrace(states, steps) && StartsGapFree(steps)
    ensures FlushesApart(states, steps) && FinishesFit(states, steps)
  {
    hide Structure, Next, FlushApart;
    forall i | 0 <= i < |steps|
      ensures FlushApart(states[i], steps[i])
    {
      AutomaticRun(states, steps, i);
    }
    ApartFlushesFit(states, steps);
  }

  // ---------- what readers get ----------

  /** A sequence number at which somebody may be reading. */
  predicate IsReader(s: State, n: nat) {
    n in s.snapshots || n == s.lastSequence
  }

  /** The state as if no compaction were running. */
  ghost function Idle(s: State): State {
    s.(job := None)
  }

  /** Steps that are no business of a compaction go the same way without one. */
  lemma IdleStep(s: State, step: Step, t: State)
    requires Structure(s) && Next(s, step, t)
    requires !step.StartCompaction? && !step.FinishCompaction?
    ensures Structure(Idle(s)) && Next(Idle(s), step, Idle(t))
    ensures FinishFits(Idle(s), step) && StartsClosed(Idle(s), step)
  {
    hide OutputLevel, Installed, ValidInputs, VersionOk, SearchOrder, OnlyWrites, PendingInMem, AllVisible;
    assert ImmEntries(Idle(s)) == ImmEntries(s) && Db(Idle(s)) == Db(s);
  }

  lemma IdleReads(s: State)
    ensures ReadersServed(Idle(s)) <==> ReadsOk(Db(s), s.history, OldestReader(s), s.lastSequence)
  {
    assert ImmEntries(Idle(s)) == ImmEntries(s) && Db(Idle(s)) == Db(s);
  }

  lemma StepKeepsReads(s: State, step: Step, t: State)
    requires Structure(s) && Next(s, step, t) && ResurrectsNothingAt(s, step)
    requires ReadsOk(Db(s), s.history, OldestReader(s), s.lastSequence)
    ensures ReadsOk(Db(t), t.history, OldestReader(t), t.lastSequence)
  {
    hide Structure, ReadersServed, ReadsOk, Next, ResurrectsNothingAt;
    IdleReads(s);
    IdleReads(t);
    if step.StartCompaction? {
      StartReadsSame(s, step, t);
    } else if step.FinishCompaction? {
      FinishKeepsReads(s, step, t);
    } else {
      IdleStep(s, step, t);
      StepKeepsStructure(Idle(s), step, Idle(t));
    }
  }

  lemma StartReadsSame(s: State, step: Step, t: State)
    requires step.StartCompaction? && Next(s, step, t)
    ensures ReadsOk(Db(s), s.history, OldestReader(s), s.lastSequence) ==>
      ReadsOk(Db(t), t.history, OldestReader(t), t.lastSequence)
  {
    hide ReadsOk;
    assert ImmEntries(t) == ImmEntries(s) && Db(t) == Db(s);
  }

  lemma FinishKeepsReads(s: State, step: Step, t: State)
    requires Structure(s) && step.FinishCompaction? && Next(s, step, t) && ResurrectsNothingAt(s, step)
    requires ReadsOk(Db(s), s.history, OldestReader(s), s.lastSequence)
    ensures ReadsOk(Db(t), t.history, OldestReader(t), t.lastSequence)
  {
    hide Structure, Next, ReadsOk, Read, LastWrite, ResurrectsNothing;
    FinishPreservesReadsIff(s, step, t);
    FinishMovesNothing(s, step, t);
    SameReads(Db(s), Db(t), s.history, s.job.value.smallest, OldestReader(s), s.lastSequence);
  }

  /** A finished compaction touches neither the history nor the readers. */
  lemma FinishMovesNothing(s: State, step: Step, t: State)
    requires Structure(s) && step.FinishCompaction? && Next(s, step, t)
    ensures s.job.Some? && s.job.value.smallest <= OldestReader(s)
    ensures t.history == s.history && t.lastSequence == s.lastSequence && OldestReader(t) == OldestReader(s)
  {
    hide VersionOk, SearchOrder, OnlyWrites, PendingInMem, AllVisible, JobOk, Installed;
  }

  lemma SameReads(db: set<Entry>, after: set<Entry>, h: seq<Entry>, smallest: nat, oldest: nat, last: nat)
    requires SameAnswers(db, after, smallest) && smallest <= oldest && ReadsOk(db, h, oldest, last)
    ensures ReadsOk(after, h, oldest, last)
  {
    hide Read, LastWrite;
    forall u: UserKey, n: nat | oldest <= n <= last
      ensures Read(after, u, n) == LastWrite(h, u, n)
    {
      assert Read(after, u, n) == Read(db, u, n);
    }
  }

  lemma {:induction false} RunKeepsReads(states: seq<State>, steps: seq<Step>, n: nat)
    requires IsTrace(states, steps) && FinishesFit(states, steps) && FinishesResurrectNothing(states, steps) && n <= |steps|
    ensures var s := states[n]; Structure(s) && ReadsOk(Db(s), s.history, OldestReader(s), s.lastSequence)
  {
    hide Structure, ReadsOk, Next, ResurrectsNothingAt, Init, FinishFits;
    EveryRunKeepsStructure(states, steps, n);
    if n == 0 {
      InitReads(states[0]);
    } else {
      RunKeepsReads(states, steps, n - 1);
      assert Next(states[n - 1], steps[n - 1], states[n - 1 + 1]) && ResurrectsNothingAt(states[n - 1], steps[n - 1]);
      StepKeepsReads(states[n - 1], steps[n - 1], states[n]);
    }
  }

  lemma InitReads(s: State)
    requires Init(s)
    ensures ReadsOk(Db(s), s.history, OldestReader(s), s.lastSequence)
  {
    InitEstablishes(s);
    hide Structure, Init, ReadsOk;
  }

  /** The promise of the engine, for all runs in which outputs fit and no compaction
      resurrects anything: whatever was flushed, moved and compacted in between, every open
      snapshot and every plain read gets the last write of the key. */
  lemma ReadersGetTheLastWrite(states: seq<State>, steps: seq<Step>, k: nat, u: UserKey, n: nat)
    requires IsTrace(states, steps) && FinishesFit(states, steps) && FinishesResurrectNothing(states, steps)
    requires k <= |steps| && IsReader(states[k], n)
    ensures Read(Db(states[k]), u, n) == LastWrite(states[k].history, u, n)
  {
    RunKeepsReads(states, steps, k);
    ReaderInRange(states[k], n);
  }

  lemma ReaderInRange(s: State, n: nat)
    requires Structure(s) && IsReader(s, n)
    ensures OldestReader(s) <= n <= s.lastSequence
  {
  }

  lemma {:induction false} ClosedRunKeepsInv(states: seq<State>, steps: seq<Step>, n: nat)
    requires IsTrace(states, steps) && FinishesFit(states, steps) && StartsFromClosed(states, steps) && n <= |steps|
    ensures Inv(states[n])
  {
    if n == 0 {
      InitEstablishes(states[0]);
    } else {
      ClosedRunKeepsInv(states, steps, n - 1);
      StepKeepsStructure(states[n - 1], steps[n - 1], states[n]);
    }
  }

  /** Nothing is resurrected when every compaction starts from closed lower files. */
  lemma ClosedRunsServeReaders(states: seq<State>, steps: seq<Step>, k: nat, u: UserKey, n: nat)
    requires IsTrace(states, steps) && FinishesFit(states, steps) && StartsFromClosed(states, steps)
    requires k <= |steps| && IsReader(states[k], n)
    ensures Read(Db(states[k]), u, n) == LastWrite(states[k].history, u, n)
  {
    ClosedRunKeepsInv(states, steps, k);
  }
}
