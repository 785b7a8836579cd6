/** The manifest: every change of version is logged as an edit, and reading the edits back
    (VersionSet::Recover) rebuilds the version that was current, after any run. */
module Recovery {
  import opened Wrappers
  import opened Tables
  import opened Versions
  import opened VersionEdits
  import opened CompactionInputs
  import opened Engine
  import opened EngineFlush
  import opened EngineFinish
  import opened EngineRuns

  /** What a step writes to the manifest, if anything. */
  ghost function EditsOf(s: State, step: Step): seq<VersionEdit> {
    match step
    case Flush(level, f) => [VersionEdit({}, [(level, f)])]
    case TrivialMove(c) =>
      if c.upper == [] then [] else [VersionEdit({(c.level, c.upper[0].number)}, [(c.level + 1, c.upper[0])])]
    case FinishCompaction(_, outputs) =>
      if s.job.None? then [] else [FinishEdit(s.job.value.inputs, outputs)]
    case _ => []
  }

  /** The manifest after `n` steps of a run. */
  ghost function Manifest(states: seq<State>, steps: seq<Step>, n: nat): seq<VersionEdit>
    requires |states| == |steps| + 1 && n <= |steps|
  {
    if n == 0 then []
    else Manifest(states, steps, n - 1) + EditsOf(states[n - 1], steps[n - 1])
  }

  const NONE := LevelState({}, [])

  /** A file number is added to a level at most once: numbers are never given out twice, and
      a file only ever moves down. */
  ghost predicate AddedAbove(added: seq<File>, l: nat, v: Version, next: nat) {
    forall f :: f in added ==> AddedOnce(f.number, l, v, next)
  }

  ghost predicate AddedOnce(n: nat, l: nat, v: Version, next: nat) {
    n < next && forall m, g :: 0 <= m < NUM_LEVELS && g in v[m] && g.number == n ==> l <= m
  }

  ghost predicate Replays(manifest: seq<VersionEdit>, l: nat, v: Version, next: nat)
    requires l < NUM_LEVELS
  {
    var ls := Replay(NONE, manifest, l);
    SavedLevel([], ls, v[l]) && FilesSorted(ls.added) && AddedAbove(ls.added, l, v, next)
  }

  /** One more edit. */
  lemma ReplaysStep(manifest: seq<VersionEdit>, e: VersionEdit, l: nat, v: Version, next: nat, v2: Version, next2: nat)
    requires l < NUM_LEVELS && Replays(manifest, l, v, next)
    requires SavedLevel(v[l], ApplyLevel(NONE, e, l), v2[l])
    requires DistinctNew(e.newFiles, l)
    requires forall g :: (l, g) in e.newFiles ==> !AddedOnce(g.number, l, v, next)
    requires forall f :: (l, f) in e.newFiles ==> AddedOnce(f.number, l, v2, next2)
    requires forall n: nat :: AddedOnce(n, l, v, next) ==> AddedOnce(n, l, v2, next2)
    ensures Replays(manifest + [e], l, v2, next2)
  {
    var ls := Replay(NONE, manifest, l);
    assert NotYetAdded(ls.added, e.newFiles, l);
    ReplayStep(ls, v[l], e, l, v2[l]);
    assert (manifest + [e])[..|manifest|] == manifest;
  }

  lemma FlushReplays(manifest: seq<VersionEdit>, level: nat, f: File, l: nat, v: Version, next: nat, v2: Version, next2: nat)
    requires l < NUM_LEVELS && Replays(manifest, l, v, next) && NumbersBelow(v, next)
    requires OneMoreFile(v, level, f, v2) && next <= f.number < next2
    requires Installed(v, VersionEdit({}, [(level, f)]), v2)
    ensures Replays(manifest + [VersionEdit({}, [(level, f)])], l, v2, next2)
  {
    var e := VersionEdit({}, [(level, f)]);
    assert forall g :: (l, g) in e.newFiles ==> g == f && l == level;
    forall n: nat | AddedOnce(n, l, v, next)
      ensures AddedOnce(n, l, v2, next2)
    {
    }
    if l == level {
      assert AddedOnce(f.number, l, v2, next2);
    }
    ReplaysStep(manifest, e, l, v, next, v2, next2);
  }

  /** Outputs have new numbers, or keep that of a file that moves down. */
  lemma ReplacedReplays(manifest: seq<VersionEdit>, c: Inputs, outputs: seq<File>, e: VersionEdit, l: nat,
                        v: Version, next: nat, v2: Version, next2: nat)
    requires l < NUM_LEVELS && Replays(manifest, l, v, next) && NumbersBelow(v, next) && VersionOk(v2)
    requires Replaced(v, c, outputs, v2) && e.newFiles == AtLevel(c.level + 1, outputs) && next <= next2
    requires DistinctNumbers(outputs)
    requires forall f :: f in outputs ==> f.number < next2
    requires forall f :: f in outputs ==> next <= f.number || f in v[c.level]
    requires Installed(v, e, v2)
    ensures Replays(manifest + [e], l, v2, next2)
  {
    NewAtLevel(c.level + 1, outputs, l);
    forall n: nat | AddedOnce(n, l, v, next)
      ensures AddedOnce(n, l, v2, next2)
    {
      StillAddedOnce(c, outputs, l, v, next, v2, next2, n);
    }
    forall f | (l, f) in e.newFiles
      ensures !AddedOnce(f.number, l, v, next) && AddedOnce(f.number, l, v2, next2)
    {
      OutputAddedOnce(c, outputs, v2, next2, f);
    }
    hide Replays, Replaced, VersionOk, NumbersBelow;
    ReplaysStep(manifest, e, l, v, next, v2, next2);
  }

  lemma StillAddedOnce(c: Inputs, outputs: seq<File>, l: nat, v: Version, next: nat, v2: Version, next2: nat, n: nat)
    requires Replaced(v, c, outputs, v2) && next <= next2 && AddedOnce(n, l, v, next)
    requires forall f :: f in outputs ==> next <= f.number || f in v[c.level]
    ensures AddedOnce(n, l, v2, next2)
  {
    forall m, g | 0 <= m < NUM_LEVELS && g in v2[m] && g.number == n
      ensures l <= m
    {
      if m == c.level + 1 && g in outputs {
        assert l <= c.level;
      } else {
        assert g in v[m];
      }
    }
  }

  lemma OutputAddedOnce(c: Inputs, outputs: seq<File>, v2: Version, next2: nat, f: File)
    requires c.level + 1 < NUM_LEVELS && VersionOk(v2) && f in v2[c.level + 1] && f.number < next2
    ensures AddedOnce(f.number, c.level + 1, v2, next2)
  {
    forall m, g | 0 <= m < NUM_LEVELS && g in v2[m] && g.number == f.number
      ensures c.level + 1 <= m
    {
      NumberHasOneLevel(v2, c.level + 1, f, m, g);
    }
  }

  lemma VersionFacts(s: State)
    requires Structure(s)
    ensures VersionOk(s.version) && ReadOrder(s.version) && NumbersBelow(s.version, s.nextFile)
    ensures s.job.Some? ==> JobOk(s.version, s.job.value)
  {
  }

  lemma StepReplays(s: State, step: Step, t: State, manifest: seq<VersionEdit>, l: nat)
    requires Structure(s) && Structure(t) && Next(s, step, t)
    requires l < NUM_LEVELS && Replays(manifest, l, s.version, s.nextFile)
    ensures Replays(manifest + EditsOf(s, step), l, t.version, t.nextFile)
  {
    hide Structure;
    if step.Flush? {
      FlushStepReplays(s, step, t, manifest, l);
    } else if step.TrivialMove? {
      MoveStepReplays(s, step, t, manifest, l);
    } else if step.FinishCompaction? {
      FinishStepReplays(s, step, t, manifest, l);
    } else {
      assert manifest + [] == manifest;
      OtherStepReplays(manifest, l, s.version, s.nextFile, t.nextFile);
    }
  }

  /** Handing out file numbers changes nothing. */
  lemma OtherStepReplays(manifest: seq<VersionEdit>, l: nat, v: Version, next: nat, next2: nat)
    requires l < NUM_LEVELS && next <= next2 && Replays(manifest, l, v, next)
    ensures Replays(manifest, l, v, next2)
  {
  }

  lemma FlushStepReplays(s: State, step: Step, t: State, manifest: seq<VersionEdit>, l: nat)
    requires Structure(s) && step.Flush? && Next(s, step, t)
    requires l < NUM_LEVELS && Replays(manifest, l, s.version, s.nextFile)
    ensures Replays(manifest + EditsOf(s, step), l, t.version, t.nextFile)
  {
    hide Structure, Replays, VersionOk, ReadOrder, NumbersBelow, OneMoreFile, Installed;
    VersionFacts(s);
    FlushFacts(s, step, t);
    FlushVersion(s.version, step.level, step.file, t.version, s.nextFile);
    FlushReplays(manifest, step.level, step.file, l, s.version, s.nextFile, t.version, t.nextFile);
  }

  lemma MoveStepReplays(s: State, step: Step, t: State, manifest: seq<VersionEdit>, l: nat)
    requires Structure(s) && Structure(t) && step.TrivialMove? && Next(s, step, t)
    requires l < NUM_LEVELS && Replays(manifest, l, s.version, s.nextFile)
    ensures Replays(manifest + EditsOf(s, step), l, t.version, t.nextFile)
  {
    hide Structure, Replays, VersionOk, ReadOrder, Installed, JobOk, Replaced;
    VersionFacts(s);
    VersionFacts(t);
    var c := step.inputs;
    MoveReplaces(s.version, c, t.version);
    MoveEdit(c);
    assert c.upper[0] in c.upper && c.upper == [c.upper[0]];
    ReplacedReplays(manifest, c, c.upper, EditsOf(s, step)[0], l, s.version, s.nextFile, t.version, t.nextFile);
  }

  lemma FinishStepReplays(s: State, step: Step, t: State, manifest: seq<VersionEdit>, l: nat)
    requires Structure(s) && Structure(t) && step.FinishCompaction? && Next(s, step, t)
    requires l < NUM_LEVELS && Replays(manifest, l, s.version, s.nextFile)
    ensures Replays(manifest + EditsOf(s, step), l, t.version, t.nextFile)
  {
    hide Structure, Replays, VersionOk, ReadOrder, NumbersBelow, Installed, JobOk, Replaced, Sorted, ValidFiles;
    VersionFacts(s);
    VersionFacts(t);
    var j := s.job.value;
    FinishReplaces(s.version, j, step.input, step.outputs, t.nextFile, t.version);
    ReplacedReplays(manifest, j.inputs, step.outputs, EditsOf(s, step)[0], l, s.version, s.nextFile, t.version, t.nextFile);
  }

  lemma InitReplays(s: State, l: nat)
    requires Init(s) && l < NUM_LEVELS
    ensures Replays([], l, s.version, s.nextFile)
  {
    assert EMPTY_VERSION[l] == [];
  }

  lemma {:induction false} RunReplays(states: seq<State>, steps: seq<Step>, n: nat, l: nat)
    requires IsTrace(states, steps) && FinishesFit(states, steps) && n <= |steps| && l < NUM_LEVELS
    ensures Replays(Manifest(states, steps, n), l, states[n].version, states[n].nextFile)
  {
    hide Structure, Replays, Next, Init;
    if n == 0 {
      InitReplays(states[0], l);
    } else {
      EveryRunKeepsStructure(states, steps, n);
      EveryRunKeepsStructure(states, steps, n - 1);
      RunReplays(states, steps, n - 1, l);
      StepReplays(states[n - 1], steps[n - 1], states[n], Manifest(states, steps, n - 1), l);
    }
  }

  /** Whatever the engine did, what Recover reads from the manifest is the current version:
      any version that the builder may save after all edits is the one that stepwise
      application produced. */
  lemma RecoverRebuildsVersion(states: seq<State>, steps: seq<Step>, n: nat, v: Version)
    requires IsTrace(states, steps) && FinishesFit(states, steps) && n <= |steps|
    requires forall l :: 0 <= l < NUM_LEVELS ==>
      SavedLevel([], Replay(NONE, Manifest(states, steps, n), l), v[l])
    ensures v == states[n].version
  {
    forall l | 0 <= l < NUM_LEVELS
      ensures v[l] == states[n].version[l]
    {
      RunReplays(states, steps, n, l);
      SortedListUnique(v[l], states[n].version[l]);
    }
  }
}
