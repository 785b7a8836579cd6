/** The storage engine as a state machine (db/db_impl.cc with db/version_set.cc).  A step is
    what happens between two releases of the mutex, or one insertion into the memtable.
    Flushes and writes may come between the start and the end of a compaction. */
module Engine {
  import opened Wrappers
  import opened DbFormat
  import opened MultiVersionMap
  import opened Tables
  import opened Versions
  import opened VersionEdits
  import opened MemTableOutput
  import opened CompactionInputs
  import opened CompactionWork

  /** A running compaction: its files, the oldest snapshot when it started, and the version
      that IsBaseLevelForKey consults. */
  datatype Job = Job(inputs: Inputs, smallest: nat, inputVersion: Version)

  /** `history` is the log of all writes, the reference for reads; no step looks at it other
      than the writes that extend it.  `applied` counts the writes that have reached the
      memtable, `lastSequence` those that readers may see. */
  datatype State = State(
    history: seq<Entry>,
    applied: nat,
    lastSequence: nat,
    mem: seq<Entry>,
    imm: Option<seq<Entry>>,
    version: Version,
    nextFile: nat,
    snapshots: seq<nat>,
    job: Option<Job>)

  datatype Operation = Operation(vtype: ValueType, user: UserKey, value: Bytes)

  datatype Step =
    | BeginWrite(ops: seq<Operation>)
    | InsertOne
    | Publish
    | SwitchMemTable
    | FlushEmpty
    | Flush(level: nat, file: File)
    | GetSnapshot
    | ReleaseSnapshot(index: nat)
    | StartCompaction(inputs: Inputs)
    | TrivialMove(inputs: Inputs)
    | FinishCompaction(input: seq<Entry>, outputs: seq<File>)

  const EMPTY_VERSION: Version := [[], [], [], [], [], [], []]

  ghost predicate Init(s: State) {
    s == State([], 0, 0, [], None, EMPTY_VERSION, 2, [], None)
  }

  /** A batch numbered from `first`, as WriteBatchInternal::InsertInto numbers it. */
  function Numbered(ops: seq<Operation>, first: nat): (es: seq<Entry>)
    ensures |es| == |ops|
    ensures forall i :: 0 <= i < |es| ==>
      es[i] == Entry(InternalKey(ops[i].user, first + i, ops[i].vtype), ops[i].value)
  {
    seq(|ops|, i requires 0 <= i < |ops| =>
      Entry(InternalKey(ops[i].user, first + i, ops[i].vtype), ops[i].value))
  }

  /** Insertion into the memtable keeps it sorted by internal key. */
  function InsertSorted(es: seq<Entry>, e: Entry): (r: seq<Entry>)
    ensures ToSet(r) == ToSet(es) + {e}
  {
    if es == [] || Less(e.key, es[0].key) then
      assert forall x :: x in [e] + es <==> x == e || x in es;
      [e] + es
    else
      assert es == [es[0]] + es[1..];
      var rest := InsertSorted(es[1..], e);
      assert forall x :: x in [es[0]] + rest <==> x == es[0] || x in ToSet(rest);
      [es[0]] + rest
  }

  /** The sequence number of the oldest reader there can be. */
  function OldestReader(s: State): nat {
    if s.snapshots == [] then s.lastSequence else s.snapshots[0]
  }

  /** v2 is v1 with the edit applied, as the version builder saves it. */
  ghost predicate Installed(v1: Version, e: VersionEdit, v2: Version) {
    forall l :: 0 <= l < NUM_LEVELS ==> SavedLevel(v1[l], ApplyLevel(LevelState({}, []), e, l), v2[l])
  }

  /** AddInputDeletions. */
  function InputDeletions(c: Inputs): set<(nat, nat)> {
    (set f | f in c.upper :: (c.level, f.number)) + (set f | f in c.lower :: (c.level + 1, f.number))
  }

  function AtLevel(level: nat, files: seq<File>): seq<(nat, File)> {
    seq(|files|, i requires 0 <= i < |files| => (level, files[i]))
  }

  function FinishEdit(c: Inputs, outputs: seq<File>): VersionEdit {
    VersionEdit(InputDeletions(c), AtLevel(c.level + 1, outputs))
  }

  ghost predicate NumberInUse(v: Version, n: nat) {
    exists l, f :: 0 <= l < NUM_LEVELS && f in v[l] && f.number == n
  }

  /** Numbers from NewFileNumber: handed out once, all below the next one. */
  ghost predicate FreshNumbers(v: Version, files: seq<File>, next: nat) {
    && DistinctNumbers(files)
    && forall f :: f in files ==> f.number < next && !NumberInUse(v, f.number)
  }

  ghost predicate Next(s: State, step: Step, t: State) {
    match step
    case BeginWrite(ops) =>
      && |s.history| == s.lastSequence && ops != []
      && s.lastSequence + |ops| < MAX_SEQUENCE
      && t == s.(history := s.history + Numbered(ops, s.lastSequence + 1))
    case InsertOne =>
      && s.applied < |s.history|
      && t == s.(mem := InsertSorted(s.mem, s.history[s.applied]), applied := s.applied + 1)
    case Publish =>
      && s.applied == |s.history|
      && t == s.(lastSequence := s.applied)
    case SwitchMemTable =>
      && |s.history| == s.lastSequence && s.imm.None?
      && t.nextFile >= s.nextFile
      && t == s.(imm := Some(s.mem), mem := [], nextFile := t.nextFile)
    case FlushEmpty =>
      && s.imm == Some([])
      && t.nextFile >= s.nextFile
      && t == s.(imm := None, nextFile := t.nextFile)
    case Flush(level, f) =>
      && s.imm.Some? && s.imm.value != []
      && s.nextFile <= f.number < t.nextFile
      && f == MakeFile(f.number, f.size, s.imm.value)
      && (exists limit :: OutputLevel(s.version, f.smallest.user, f.largest.user, limit, level))
      && Installed(s.version, VersionEdit({}, [(level, f)]), t.version)
      && t == s.(imm := None, version := t.version, nextFile := t.nextFile)
    case GetSnapshot =>
      t == s.(snapshots := s.snapshots + [s.lastSequence])
    case ReleaseSnapshot(i) =>
      && i < |s.snapshots|
      && t == s.(snapshots := s.snapshots[..i] + s.snapshots[i + 1..])
    case StartCompaction(c) =>
      && s.job.None?
      && ValidInputs(s.version, c)
      && t == s.(job := Some(Job(c, OldestReader(s), s.version)))
    case TrivialMove(c) =>
      && s.job.None?
      && ValidInputs(s.version, c) && |c.upper| == 1 && c.lower == []
      && Installed(s.version, VersionEdit({(c.level, c.upper[0].number)}, [(c.level + 1, c.upper[0])]), t.version)
      && t == s.(version := t.version)
    case FinishCompaction(input, outputs) =>
      && s.job.Some?
      && var j := s.job.value;
      && Sorted(input) && ToSet(input) == LevelEntries(j.inputs.All())
      && ValidFiles(outputs)
      && Concat(outputs) == Kept(input, |input|, j.smallest, j.inputVersion, j.inputs.level)
      && FreshNumbers(s.version, outputs, t.nextFile) && t.nextFile >= s.nextFile
      && (forall f :: f in outputs ==> f.number >= s.nextFile)
      && Installed(s.version, FinishEdit(j.inputs, outputs), t.version)
      && t == s.(job := None, version := t.version, nextFile := t.nextFile)
  }

  /** AddBoundaryInputs on the lower files, which SetupOtherInputs does not call, would add
      nothing: no file of the next level continues the user key with which they end. */
  ghost predicate LowerClosed(v: Version, c: Inputs)
    requires c.level + 1 < NUM_LEVELS
  {
    c.lower != [] ==> forall f :: f in v[c.level + 1] ==> !IsBoundaryFile(f, LargestKey(c.lower))
  }

  /** The file lies before all entries of `es`, or after all of them. */
  ghost predicate Apart(f: File, es: set<Entry>) {
    || (forall e :: e in es ==> Less(f.largest, e.key))
    || (forall e :: e in es ==> Less(e.key, f.smallest))
  }

  /** The code flushes memtables while a compaction runs, also into its lower level, and
      relies on the new file lying beside all that the compaction reads. */
  ghost predicate FlushApart(s: State, step: Step) {
    step.Flush? && s.job.Some? && step.level == s.job.value.inputs.level + 1 ==>
      Apart(step.file, LevelEntries(s.job.value.inputs.All()))
  }

  /** What SaveTo checks in debug builds only: an output overlaps no file of its level that
      the compaction leaves. */
  ghost predicate OutputsFit(v: Version, c: Inputs, outputs: seq<File>) {
    c.level + 1 < NUM_LEVELS ==>
      forall f, g :: f in v[c.level + 1] && f !in c.lower && g in outputs ==>
        Less(f.largest, g.smallest) || Less(g.largest, f.smallest)
  }

  ghost predicate FinishFits(s: State, step: Step) {
    step.FinishCompaction? && s.job.Some? ==> OutputsFit(s.version, s.job.value.inputs, step.outputs)
  }

  /** The code relies on the lower files of a compaction being closed, which it never checks. */
  ghost predicate StartsClosed(s: State, step: Step) {
    step.StartCompaction? && step.inputs.level + 1 < NUM_LEVELS ==> LowerClosed(s.version, step.inputs)
  }

  // ---------- the invariant ----------

  ghost function ImmEntries(s: State): set<Entry> {
    if s.imm.Some? then ToSet(s.imm.value) else {}
  }

  ghost function Db(s: State): set<Entry> {
    ToSet(s.mem) + ImmEntries(s) + VersionEntries(s.version)
  }

  ghost predicate SnapshotsOk(snapshots: seq<nat>, last: nat) {
    && (forall i, j :: 0 <= i < j < |snapshots| ==> snapshots[i] <= snapshots[j])
    && (forall i :: 0 <= i < |snapshots| ==> snapshots[i] <= last)
  }

  ghost predicate VersionOk(v: Version) {
    && ValidVersion(v)
    && (forall l :: 0 <= l < NUM_LEVELS ==> FilesSorted(v[l]))
    && (forall l, m :: 0 <= l < m < NUM_LEVELS ==> DisjointNumbers(v[l], v[m]))
  }

  ghost predicate NumbersBelow(v: Version, next: nat) {
    forall l, f :: 0 <= l < NUM_LEVELS && f in v[l] ==> f.number < next
  }

  /** Newer data is found first: memtable, immutable memtable, then the version. */
  ghost predicate SearchOrder(mem: set<Entry>, imm: set<Entry>, v: Version) {
    && Above(mem, imm)
    && Above(mem + imm, VersionEntries(v))
    && ReadOrder(v)
  }

  /** Whatever is stored was written. */
  ghost predicate OnlyWrites(db: set<Entry>, history: seq<Entry>, applied: nat) {
    && applied <= |history|
    && forall e :: e in db ==> 1 <= e.key.seqno <= applied && history[e.key.seqno - 1] == e
  }

  /** What readers cannot see yet is in the memtable ... */
  ghost predicate PendingInMem(mem: set<Entry>, history: seq<Entry>, last: nat, applied: nat) {
    && applied <= |history|
    && forall i :: last <= i < applied ==> history[i] in mem
  }

  /** ... and only there. */
  ghost predicate AllVisible(es: set<Entry>, last: nat) {
    forall e :: e in es ==> e.key.seqno <= last
  }

  /** Every reader that can exist gets the last write at or below its snapshot. */
  ghost predicate ReadsOk(db: set<Entry>, history: seq<Entry>, oldest: nat, last: nat) {
    forall u: UserKey, n: nat :: oldest <= n <= last ==> Read(db, u, n) == LastWrite(history, u, n)
  }

  /** Files of the upper level that the compaction leaves hold newer data than it reads. */
  ghost predicate UpperApart(v: Version, c: Inputs) {
    && c.level + 1 < NUM_LEVELS && SubList(c.upper, v[c.level])
    && forall f :: f in v[c.level] && f !in c.upper ==> Above(ToSet(f.entries), LevelEntries(c.All()))
  }

  /** Those of the lower level lie before or after everything that it reads. */
  ghost predicate LowerApart(v: Version, c: Inputs) {
    && c.level + 1 < NUM_LEVELS && SubList(c.lower, v[c.level + 1])
    && forall f :: f in v[c.level + 1] && f !in c.lower ==> Apart(f, LevelEntries(c.All()))
  }

  ghost predicate LowerThere(v: Version, c: Inputs) {
    c.level + 1 < NUM_LEVELS && SubList(c.lower, v[c.level + 1])
  }

  /** No file is read twice; but in level 0, files follow one another without overlap. */
  ghost predicate InputsInOrder(c: Inputs) {
    DistinctNumbers(c.upper) && (c.level > 0 ==> LevelSorted(c.upper)) && LevelSorted(c.lower)
  }

  ghost predicate JobOk(v: Version, j: Job) {
    UpperApart(v, j.inputs) && LowerThere(v, j.inputs) && InputsInOrder(j.inputs)
  }

  /** Files of the lower level that the compaction leaves hold no older data of its user keys ... */
  ghost predicate LowerNewer(v: Version, c: Inputs)
    requires c.level + 1 < NUM_LEVELS
  {
    forall f :: f in v[c.level + 1] && f !in c.lower ==> Above(ToSet(f.entries), LevelEntries(c.All()))
  }

  /** ... and neither do deeper levels, where IsBaseLevelForKey says so. */
  ghost predicate NothingDeeper(v: Version, j: Job) {
    forall l, d, e ::
      j.inputs.level + 2 <= l < NUM_LEVELS && d in LevelEntries(j.inputs.All()) && e in LevelEntries(v[l])
      && d.key.user == e.key.user && IsBaseLevel(j.inputVersion, j.inputs.level, d.key.user)
      ==> e.key.seqno > d.key.seqno
  }

  ghost predicate JobReadsOk(v: Version, j: Job)
    requires j.inputs.level + 1 < NUM_LEVELS
  {
    LowerNewer(v, j.inputs) && NothingDeeper(v, j)
  }

  /** What holds in every run: levels are legal, files and memtables are searched in an
      order in which newer data comes first, and only written data is stored. */
  ghost predicate Structure(s: State) {
    && IsHistory(s.history)
    && s.lastSequence <= s.applied <= |s.history| < MAX_SEQUENCE
    && Sorted(s.mem) && (s.imm.Some? ==> Sorted(s.imm.value))
    && VersionOk(s.version) && NumbersBelow(s.version, s.nextFile)
    && SnapshotsOk(s.snapshots, s.lastSequence)
    && SearchOrder(ToSet(s.mem), ImmEntries(s), s.version)
    && OnlyWrites(Db(s), s.history, s.applied)
    && PendingInMem(ToSet(s.mem), s.history, s.lastSequence, s.applied)
    && AllVisible(ImmEntries(s) + VersionEntries(s.version), s.lastSequence)
    && (s.job.Some? ==> JobOk(s.version, s.job.value) && s.job.value.smallest <= OldestReader(s))
  }

  /** Readers get the right answers, and a running compaction will not change them. */
  ghost predicate ReadersServed(s: State) {
    && ReadsOk(Db(s), s.history, OldestReader(s), s.lastSequence)
    && (s.job.Some? ==> s.job.value.inputs.level + 1 < NUM_LEVELS && JobReadsOk(s.version, s.job.value))
  }

  /** What holds as long as no compaction starts from lower files that are not closed. */
  ghost predicate Inv(s: State) {
    Structure(s) && ReadersServed(s)
  }
}
