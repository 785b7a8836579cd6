/** The manifest file: VersionSet::Recover over its records (db/version_set.cc), from the bytes
    to the version and the counters, and what a crash may cost. */
module Manifests {
  import opened Wrappers
  import opened DbFormat
  import opened Tables
  import opened Versions
  import opened VersionEdits
  import opened EditCodec
  import opened LogFormat
  import LogFiles
  import opened Engine
  import opened EngineRuns
  import opened Recovery

  /** The edit that the bytes stand for, once the table files that it names are opened. */
  function Meaning(e: Edit, table: FileMeta -> File): VersionEdits.VersionEdit {
    VersionEdits.VersionEdit(e.deletedFiles, OpenAll(e.newFiles, table))
  }

  function OpenAll(fs: seq<(nat, FileMeta)>, table: FileMeta -> File): seq<(nat, File)> {
    seq(|fs|, i requires 0 <= i < |fs| => (fs[i].0, table(fs[i].1)))
  }

  function Decoded(record: Bytes): Edit {
    ApplyFields(EMPTY_EDIT, Scan(record).fields)
  }

  function DecodedAll(records: seq<Bytes>): (es: seq<Edit>)
    ensures |es| == |records|
  {
    seq(|records|, i requires 0 <= i < |records| => Decoded(records[i]))
  }

  function Meanings(es: seq<Edit>, table: FileMeta -> File): (r: seq<VersionEdits.VersionEdit>)
    ensures |r| == |es|
  {
    seq(|es|, i requires 0 <= i < |es| => Meaning(es[i], table))
  }

  /** A record that does not parse, or that another comparator wrote. */
  predicate Broken(record: Bytes, name: Bytes) {
    Scan(record).complaint.Some? || OtherComparator(Decoded(record), name)
  }

  predicate OtherComparator(e: Edit, name: Bytes) {
    e.comparator.Some? && e.comparator.value != name
  }

  datatype Counter = LogNo | PrevLogNo | NextNo | LastNo

  function Pick(e: Edit, c: Counter): Option<nat> {
    match c
    case LogNo => e.logNumber
    case PrevLogNo => e.prevLogNumber
    case NextNo => e.nextFile
    case LastNo => e.lastSequence
  }

  function Newer(before: Option<nat>, n: Option<nat>): Option<nat> {
    if n.Some? then n else before
  }

  /** The last edit that sets the counter decides. */
  function Latest(es: seq<Edit>, c: Counter): Option<nat> {
    if es == [] then None else Newer(Latest(es[..|es| - 1], c), Pick(es[|es| - 1], c))
  }

  datatype Outcome =
    | Recovered(version: Version, manifestFile: nat, nextFile: nat, lastSequence: nat, logNumber: nat, prevLogNumber: nat)
    | Failed(why: string)

  predicate Lacking(es: seq<Edit>) {
    Latest(es, NextNo).None? || Latest(es, LogNo).None? || Latest(es, LastNo).None?
  }

  ghost predicate AnyBroken(records: seq<Bytes>, name: Bytes) {
    exists i :: 0 <= i < |records| && Broken(records[i], name)
  }

  function OrZero(n: Option<nat>): nat {
    if n.Some? then n.value else 0
  }

  ghost predicate CountersFrom(r: Outcome, es: seq<Edit>) {
    && r.Recovered? && !Lacking(es)
    && r.manifestFile == Latest(es, NextNo).value
    && r.nextFile == Latest(es, NextNo).value + 1
    && r.lastSequence == Latest(es, LastNo).value
    && r.logNumber == Latest(es, LogNo).value
    && r.prevLogNumber == OrZero(Latest(es, PrevLogNo))
  }

  lemma MeaningValid(record: Bytes, table: FileMeta -> File)
    ensures ValidEdit(Meaning(Decoded(record), table))
  {
    ScannedLevels(record);
    AppliedLevels(EMPTY_EDIT, Scan(record).fields);
    hide Scan, ApplyFields;
    var e := Decoded(record);
    assert forall i :: 0 <= i < |e.newFiles| ==> e.newFiles[i] in e.newFiles;
  }

  lemma OneMoreRecord(records: seq<Bytes>, i: nat, table: FileMeta -> File)
    requires i < |records|
    ensures DecodedAll(records[..i + 1])[..i] == DecodedAll(records[..i])
    ensures DecodedAll(records[..i + 1])[i] == Decoded(records[i])
    ensures Meanings(DecodedAll(records[..i + 1]), table)[..i] == Meanings(DecodedAll(records[..i]), table)
    ensures Meanings(DecodedAll(records[..i + 1]), table)[i] == Meaning(Decoded(records[i]), table)
  {
    hide Decoded, Meaning;
  }

  /** The loop of Recover over the records of the manifest, and what is made of them. */
  method Recover(records: seq<Bytes>, name: Bytes, table: FileMeta -> File) returns (r: Outcome)
    ensures r.Failed? <==> AnyBroken(records, name) || Lacking(DecodedAll(records))
    ensures r.Recovered? ==> CountersFrom(r, DecodedAll(records))
    ensures r.Recovered? ==> forall l :: 0 <= l < NUM_LEVELS ==>
      SavedLevel([], Replay(NONE, Meanings(DecodedAll(records), table), l), r.version[l])
  {
    hide Scan, ApplyFields, Replay, ApplyLevel, Meaning, DecodedAll, Meanings, SavedLevel;
    var builder := new Builder(EMPTY_VERSION);
    var log, prevLog, next, last := None, None, None, None;
    Nothing(table);
    assert records[..0] == [];
    for i := 0 to |records|
      invariant builder.Valid() && fresh(builder) && builder.base == EMPTY_VERSION
      invariant forall k :: 0 <= k < i ==> !Broken(records[k], name)
      invariant var es := DecodedAll(records[..i]);
        && log == Latest(es, LogNo) && prevLog == Latest(es, PrevLogNo)
        && next == Latest(es, NextNo) && last == Latest(es, LastNo)
      invariant forall l :: 0 <= l < NUM_LEVELS ==>
        builder.Level(l) == Replay(NONE, Meanings(DecodedAll(records[..i]), table), l)
    {
      var edit := new EditCodec.VersionEdit();
      var complaint := edit.DecodeFrom(records[i]);
      assert edit.Value() == Decoded(records[i]);
      if complaint.Some? {
        assert Broken(records[i], name);
        return Failed(complaint.value);
      }
      if edit.comparator.Some? && edit.comparator.value != name {
        assert Broken(records[i], name);
        return Failed("does not match existing comparator");
      }
      MeaningValid(records[i], table);
      builder.Apply(Meaning(edit.Value(), table));
      OneMoreRecord(records, i, table);
      OneMoreReplayed(DecodedAll(records[..i + 1]), i, table);
      log, prevLog := Newer(log, edit.logNumber), Newer(prevLog, edit.prevLogNumber);
      next, last := Newer(next, edit.nextFile), Newer(last, edit.lastSequence);
    }
    assert records[..|records|] == records;
    if next.None? {
      return Failed("no meta-nextfile entry in descriptor");
    } else if log.None? {
      return Failed("no meta-lognumber entry in descriptor");
    } else if last.None? {
      return Failed("no last-sequence-number entry in descriptor");
    }
    var v := builder.SaveTo();
    r := Recovered(v, next.value, next.value + 1, last.value, log.value, OrZero(prevLog));
  }

  lemma Nothing(table: FileMeta -> File)
    ensures DecodedAll([]) == [] && Meanings([], table) == []
    ensures forall l :: Replay(NONE, [], l) == NONE
  {
  }

  lemma OneMoreReplayed(es: seq<Edit>, i: nat, table: FileMeta -> File)
    requires |es| == i + 1
    ensures var ms := Meanings(es, table);
      forall l :: Replay(NONE, ms, l) == ApplyLevel(Replay(NONE, ms[..i], l), ms[i], l)
  {
    hide ApplyLevel, Meanings;
  }

  // ---------- the manifest of a run ----------

  /** What DBImpl::NewDB writes first. */
  function NewDb(name: Bytes): Edit {
    EMPTY_EDIT.(comparator := Some(name), logNumber := Some(0), nextFile := Some(2), lastSequence := Some(0))
  }

  /** What is recovered from the manifest of a new database. */
  lemma NewDbCounters(name: Bytes, r: Outcome)
    requires CountersFrom(r, [NewDb(name)])
    ensures r.manifestFile == 2 && r.nextFile == 3 && r.lastSequence == 0 && r.logNumber == 0 && r.prevLogNumber == 0
  {
    var es := [NewDb(name)];
    assert es[..0] == [] && forall c :: Latest(es, c) == Newer(Latest([], c), Pick(NewDb(name), c));
  }

  /** `es` are the edits that a run has logged: the one of NewDB, then one for each change of
      version, with whatever counters and compaction pointers LogAndApply has put in. */
  ghost predicate Logged(es: seq<Edit>, name: Bytes, table: FileMeta -> File, manifest: seq<VersionEdits.VersionEdit>) {
    && |es| == |manifest| + 1 && es[0] == NewDb(name)
    && (forall i :: 0 <= i < |es| ==> EditFits(es[i]) && !OtherComparator(es[i], name))
    && (forall i :: 0 <= i < |manifest| ==> Meaning(es[i + 1], table) == manifest[i])
  }

  ghost function Encoded(es: seq<Edit>): (r: seq<Bytes>)
    ensures |r| == |es|
  {
    seq(|es|, i requires 0 <= i < |es| => AllBytes(Fields(es[i])))
  }

  lemma EncodedReadsBack(e: Edit, name: Bytes)
    requires EditFits(e) && !OtherComparator(e, name)
    ensures Decoded(AllBytes(Fields(e))) == e && !Broken(AllBytes(Fields(e)), name)
  {
    EditRoundTrip(e, EMPTY_EDIT);
    hide Scan, Fields, AllBytes, ApplyFields;
    assert EMPTY_EDIT.compactPointers + e.compactPointers == e.compactPointers;
  }

  lemma EncodedAllReadBack(es: seq<Edit>, name: Bytes)
    requires forall i :: 0 <= i < |es| ==> EditFits(es[i]) && !OtherComparator(es[i], name)
    ensures DecodedAll(Encoded(es)) == es && !AnyBroken(Encoded(es), name)
  {
    hide Decoded, Broken, EditFits, OtherComparator, Fields, AllBytes;
    forall i | 0 <= i < |es|
      ensures Decoded(Encoded(es)[i]) == es[i] && !Broken(Encoded(es)[i], name)
    {
      EncodedReadsBack(es[i], name);
    }
  }

  lemma {:induction false} NewDbSetsCounters(es: seq<Edit>, name: Bytes)
    requires es != [] && es[0] == NewDb(name)
    ensures !Lacking(es)
    decreases |es|
  {
    if |es| == 1 {
      assert es[..0] == [];
    } else {
      NewDbSetsCounters(es[..|es| - 1], name);
    }
  }

  /** The edit of NewDB changes no level. */
  lemma {:induction false} ReplayAfterNewDb(e: VersionEdits.VersionEdit, edits: seq<VersionEdits.VersionEdit>, l: nat)
    requires e == VersionEdits.VersionEdit({}, [])
    ensures Replay(NONE, [e] + edits, l) == Replay(NONE, edits, l)
    decreases |edits|
  {
    if edits == [] {
      assert [e] + edits == [e] && [e][..0] == [];
      assert {} + DeletedAt(e, l) == {};
    } else {
      assert ([e] + edits)[..|edits|] == [e] + edits[..|edits| - 1];
      ReplayAfterNewDb(e, edits[..|edits| - 1], l);
    }
  }

  lemma LoggedMeanings(es: seq<Edit>, name: Bytes, table: FileMeta -> File, manifest: seq<VersionEdits.VersionEdit>)
    requires Logged(es, name, table, manifest)
    ensures Meanings(es, table) == [VersionEdits.VersionEdit({}, [])] + manifest
  {
    assert Meaning(es[0], table) == VersionEdits.VersionEdit({}, []);
    hide Meaning, EditFits;
  }

  // ---------- prefixes of the manifest ----------

  /** Each step adds at most one edit. */
  lemma {:induction false} ManifestGrows(states: seq<State>, steps: seq<Step>, m: nat, n: nat)
    requires |states| == |steps| + 1 && m <= n <= |steps|
    ensures Manifest(states, steps, m) <= Manifest(states, steps, n)
    decreases n
  {
    if m < n {
      ManifestGrows(states, steps, m, n - 1);
    }
  }

  /** Any number of edits between two points of a run is that of some point between them. */
  lemma {:induction false} SomePointBetween(states: seq<State>, steps: seq<Step>, m: nat, n: nat, k: nat) returns (j: nat)
    requires |states| == |steps| + 1 && m <= n <= |steps|
    requires |Manifest(states, steps, m)| <= k <= |Manifest(states, steps, n)|
    ensures m <= j <= n && |Manifest(states, steps, j)| == k
    decreases n
  {
    if k == |Manifest(states, steps, n)| || m == n {
      j := n;
    } else {
      assert |EditsOf(states[n - 1], steps[n - 1])| <= 1;
      j := SomePointBetween(states, steps, m, n - 1, k);
    }
  }

  lemma LoggedPrefix(es: seq<Edit>, name: Bytes, table: FileMeta -> File, all: seq<VersionEdits.VersionEdit>,
                     some: seq<VersionEdits.VersionEdit>)
    requires Logged(es, name, table, all) && some <= all
    ensures Logged(es[..|some| + 1], name, table, some)
  {
    hide Meaning, EditFits;
  }

  /** Reading got at least as far as what was synced. */
  lemma ReadCoversSynced(records: seq<Bytes>, synced: nat, read: nat, size: nat)
    requires synced <= |records| && read <= |records| && |LogFile(records[..synced])| <= size
    requires read < |records| ==> size < |LogFile(records[..read + 1])|
    ensures synced <= read
  {
    LogFiles.PrefixesGrow(records, read + 1, if synced > read then synced else read + 1);
  }

  lemma LoggedReadsBack(es: seq<Edit>, name: Bytes, table: FileMeta -> File, manifest: seq<VersionEdits.VersionEdit>)
    requires Logged(es, name, table, manifest)
    ensures DecodedAll(Encoded(es)) == es && !AnyBroken(Encoded(es), name) && !Lacking(es)
  {
    hide EditFits, Meaning;
    EncodedAllReadBack(es, name);
    NewDbSetsCounters(es, name);
  }

  /** How many records the manifest has after `n` steps. */
  ghost function RecordCount(states: seq<State>, steps: seq<Step>, n: nat): nat {
    if |states| == |steps| + 1 && n <= |steps| then |Manifest(states, steps, n)| + 1 else 0
  }

  /** A run, and the edits that its first `n` steps have logged. */
  ghost predicate RunLogged(states: seq<State>, steps: seq<Step>, n: nat, es: seq<Edit>, name: Bytes,
                            table: FileMeta -> File) {
    && IsTrace(states, steps) && FinishesFit(states, steps) && n <= |steps|
    && Logged(es, name, table, Manifest(states, steps, n))
  }

  lemma RunLoggedSize(states: seq<State>, steps: seq<Step>, n: nat, es: seq<Edit>, name: Bytes, table: FileMeta -> File)
    requires RunLogged(states, steps, n, es, name, table)
    ensures n < |states| == |steps| + 1 && |es| == RecordCount(states, steps, n)
  {
    hide FinishesFit, Manifest, EditFits, Meaning;
  }

  /** What reading `k` of the records means for the run. */
  lemma ReadOfRun(k: nat, states: seq<State>, steps: seq<Step>, m: nat, n: nat, es: seq<Edit>, name: Bytes,
                  table: FileMeta -> File) returns (j: nat)
    requires RunLogged(states, steps, n, es, name, table) && m <= n
    requires RecordCount(states, steps, m) <= k <= |es|
    ensures m <= j <= n && RecordCount(states, steps, j) == k && RunLogged(states, steps, j, es[..k], name, table)
  {
    RunLoggedSize(states, steps, n, es, name, table);
    hide IsTrace, FinishesFit, Manifest, Logged;
    j := SomePointBetween(states, steps, m, n, k - 1);
    ManifestGrows(states, steps, j, n);
    LoggedPrefix(es, name, table, Manifest(states, steps, n), Manifest(states, steps, j));
  }

  lemma ReadsBackOfRun(k: nat, states: seq<State>, steps: seq<Step>, j: nat, es: seq<Edit>, name: Bytes,
                       table: FileMeta -> File)
    requires k <= |es| && RunLogged(states, steps, j, es[..k], name, table)
    ensures DecodedAll(Encoded(es)[..k]) == es[..k] && !AnyBroken(Encoded(es)[..k], name) && !Lacking(es[..k])
  {
    RunLoggedSize(states, steps, j, es[..k], name, table);
    hide IsTrace, FinishesFit, Manifest, Logged, DecodedAll, AnyBroken, Lacking, Fields, AllBytes;
    LoggedReadsBack(es[..k], name, table, Manifest(states, steps, j));
    assert Encoded(es[..k]) == Encoded(es)[..k];
  }

  /** The version that is saved from all edits up to a point is the one of that point. */
  lemma VersionOfPoint(states: seq<State>, steps: seq<Step>, j: nat, es: seq<Edit>, name: Bytes, table: FileMeta -> File,
                       v: Version)
    requires RunLogged(states, steps, j, es, name, table)
    requires forall l :: 0 <= l < NUM_LEVELS ==> SavedLevel([], Replay(NONE, Meanings(es, table), l), v[l])
    ensures j < |states| && v == states[j].version
  {
    RunLoggedSize(states, steps, j, es, name, table);
    hide IsTrace, FinishesFit, Manifest, Logged, Replay, SavedLevel, Meanings;
    var edits := Manifest(states, steps, j);
    LoggedMeanings(es, name, table, edits);
    forall l | 0 <= l < NUM_LEVELS
      ensures SavedLevel([], Replay(NONE, edits, l), v[l])
    {
      ReplayAfterNewDb(VersionEdits.VersionEdit({}, []), edits, l);
    }
    RecoverRebuildsVersion(states, steps, j, v);
  }

  /** Opening the database after a crash that cut the manifest at any byte, as long as the
      edits of the first `m` steps were synced: the version is the one that was current
      after `m` steps or at a later point of the run, and the counters are those logged by then. */
  method RecoverAfterCrash(file: Bytes, name: Bytes, table: FileMeta -> File, ghost es: seq<Edit>,
                           ghost states: seq<State>, ghost steps: seq<Step>, ghost m: nat, ghost n: nat)
    returns (r: Outcome, ghost j: nat)
    requires RunLogged(states, steps, n, es, name, table) && m <= n
    requires file <= LogFile(Encoded(es)) && RecordCount(states, steps, m) <= |es|
    requires |LogFile(Encoded(es)[..RecordCount(states, steps, m)])| <= |file|
    ensures m <= j <= n < |states| && RecordCount(states, steps, j) <= |es|
    ensures r.Recovered? && r.version == states[j].version
    ensures CountersFrom(r, es[..RecordCount(states, steps, j)])
    ensures file == LogFile(Encoded(es)) ==> r.version == states[n].version
  {
    hide LogFile, RunLogged, RecordCount, Replay, SavedLevel, CountersFrom, Lacking;
    hide Encoded, DecodedAll, Meanings, AnyBroken;
    RunLoggedSize(states, steps, n, es, name, table);
    var read, corruptions := LogFiles.ReadLog(file, Encoded(es));
    ReadCoversSynced(Encoded(es), RecordCount(states, steps, m), |read|, |file|);
    r := Recover(read, name, table);
    j := ReadOfRun(|read|, states, steps, m, n, es, name, table);
    ReadsBackOfRun(|read|, states, steps, j, es, name, table);
    VersionOfPoint(states, steps, j, es[..|read|], name, table, r.version);
    if read == Encoded(es) {
      assert es[..|read|] == es;
      VersionOfPoint(states, steps, n, es, name, table, r.version);
    }
  }
}
