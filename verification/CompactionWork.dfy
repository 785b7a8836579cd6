/** The compaction loop: which entries survive and how they are cut into files
    (DBImpl::DoCompactionWork in db/db_impl.cc, Compaction::IsBaseLevelForKey in
    db/version_set.cc). */
module CompactionWork {
  import opened DbFormat
  import opened Tables
  import opened Versions
  import opened KeyRanges

  /** No file more than one level below the compaction can hold the user key. */
  ghost predicate IsBaseLevel(v: Version, level: nat, u: UserKey) {
    forall l, f :: level + 2 <= l < NUM_LEVELS && f in v[l] ==> !CoversUserKey(f, u)
  }

  /** The cursors into the deeper levels that let the loop ask about ascending user keys
      without searching from the start each time. */
  class BaseLevelCursor {
    const version: Version
    const level: nat
    const levelPtrs: array<nat>

    ghost predicate Valid()
      reads levelPtrs
    {
      && ValidVersion(version)
      && levelPtrs.Length == NUM_LEVELS
      && forall l :: 0 <= l < NUM_LEVELS ==> levelPtrs[l] <= |version[l]|
    }

    /** Every file the cursors have passed ends before `u`. */
    ghost predicate Passed(u: UserKey)
      requires Valid()
      reads levelPtrs
    {
      forall l, i :: 0 <= l < NUM_LEVELS && 0 <= i < levelPtrs[l] ==> version[l][i].largest.user < u
    }

    /** Before the first question. */
    ghost predicate AtStart()
      reads levelPtrs
    {
      Valid() && forall l :: 0 <= l < NUM_LEVELS ==> levelPtrs[l] == 0
    }

    lemma PassesOn(u: UserKey, w: UserKey)
      requires Valid() && Passed(u) && u <= w
      ensures Passed(w)
    {
    }

    constructor (version: Version, level: nat)
      requires ValidVersion(version)
      ensures AtStart() && fresh(levelPtrs) && this.version == version && this.level == level
    {
      this.version, this.level := version, level;
      levelPtrs := new nat[NUM_LEVELS](_ => 0);
    }

    /** IsBaseLevelForKey: with ascending questions the cursor answers like a full scan. */
    method IsBaseLevelForKey(u: UserKey) returns (r: bool)
      requires Valid() && Passed(u)
      modifies levelPtrs
      ensures Valid() && Passed(u)
      ensures r <==> IsBaseLevel(version, level, u)
    {
      var l := level + 2;
      while l < NUM_LEVELS
        invariant Valid() && Passed(u)
        invariant level + 2 <= l
        invariant forall m, f :: level + 2 <= m < l && m < NUM_LEVELS && f in version[m] ==> !CoversUserKey(f, u)
      {
        var files := version[l];
        while levelPtrs[l] < |files|
          invariant Valid() && Passed(u)
          decreases |files| - levelPtrs[l]
        {
          var f := files[levelPtrs[l]];
          if u <= f.largest.user {
            if u >= f.smallest.user {
              assert f in version[l] && CoversUserKey(f, u);
              return false;
            }
            CursorStops(files, levelPtrs[l], u);
            break;
          }
          levelPtrs[l] := levelPtrs[l] + 1;
        }
        l := l + 1;
      }
      r := true;
    }
  }

  /** The first file that does not end before `u` starts after it: so no file covers it. */
  lemma CursorStops(files: seq<File>, p: nat, u: UserKey)
    requires ValidFiles(files) && LevelSorted(files) && p < |files|
    requires forall i :: 0 <= i < p ==> files[i].largest.user < u
    requires u < files[p].smallest.user
    ensures forall f :: f in files ==> !CoversUserKey(f, u)
  {
    LargestAscends(files);
    forall f | f in files
      ensures !CoversUserKey(f, u)
    {
      var i :| 0 <= i < |files| && files[i] == f;
      if i > p {
        assert Less(files[p].smallest, files[i].smallest);
      }
    }
  }

  /** last_sequence_for_key when entry `i` arrives. */
  function LastSequenceForKey(input: seq<Entry>, i: nat): nat
    requires i < |input|
  {
    if i > 0 && input[i - 1].key.user == input[i].key.user then input[i - 1].key.seqno else MAX_SEQUENCE
  }

  /** The two reasons of the loop for dropping an entry: rule (A), hidden by a newer entry
      that every live reader sees; or a deletion marker with nothing left to delete. */
  ghost predicate DropsKey(key: InternalKey, lastSequenceForKey: nat, smallest: nat, v: Version, level: nat) {
    || lastSequenceForKey <= smallest
    || (key.vtype == Deletion && key.seqno <= smallest && IsBaseLevel(v, level, key.user))
  }

  ghost predicate Drops(input: seq<Entry>, i: nat, smallest: nat, v: Version, level: nat)
    requires i < |input|
  {
    DropsKey(input[i].key, LastSequenceForKey(input, i), smallest, v, level)
  }

  ghost function Kept(input: seq<Entry>, n: nat, smallest: nat, v: Version, level: nat): seq<Entry>
    requires n <= |input|
  {
    if n == 0 then []
    else if Drops(input, n - 1, smallest, v, level) then Kept(input, n - 1, smallest, v, level)
    else Kept(input, n - 1, smallest, v, level) + [input[n - 1]]
  }

  /** All entries of some files, in order. */
  function Concat(files: seq<File>): seq<Entry> {
    if files == [] then [] else Concat(files[..|files| - 1]) + files[|files| - 1].entries
  }

  function MakeFile(number: nat, size: nat, entries: seq<Entry>): File
    requires entries != []
  {
    File(number, size, entries[0].key, entries[|entries| - 1].key, entries)
  }

  /** Outputs get consecutive numbers. */
  ghost predicate ValidOutputs(outputs: seq<File>, first: nat) {
    forall i :: 0 <= i < |outputs| ==> outputs[i].number == first + i && ValidFile(outputs[i])
  }

  lemma ConcatSnoc(files: seq<File>, f: File)
    ensures Concat(files + [f]) == Concat(files) + f.entries
  {
    assert (files + [f])[..|files|] == files;
  }

  // ---------- where the outputs are cut ----------

  /** What ends an output file: the files two levels below, of which one output may overlap
      so many bytes; and the size to reach.  `written` and `size` are the bytes of the table
      that holds some entries, while it is being built and when it is finished. */
  datatype Limits = Limits(grandparents: seq<File>, maxOverlap: nat, maxFileSize: nat,
                           written: seq<Entry> -> nat, size: seq<Entry> -> nat)

  /** The files at the front that end before the key. */
  function EndBefore(files: seq<File>, k: InternalKey): (n: nat)
    ensures n <= |files| && (forall i :: 0 <= i < n ==> Less(files[i].largest, k))
    ensures n < |files| ==> !Less(files[n].largest, k)
  {
    if files == [] || !Less(files[0].largest, k) then 0 else 1 + EndBefore(files[1..], k)
  }

  /** Bytes of the files that end between two keys. */
  function BytesBetween(files: seq<File>, a: InternalKey, b: InternalKey): nat {
    var i, j := EndBefore(files, a), EndBefore(files, b);
    if i <= j then TotalFileSize(files[i..j]) else 0
  }

  /** The bytes that end between the entry at which the current count began and entry `i`; the
      count begins anew at an entry with which an output must begin. */
  function Overlapped(lim: Limits, input: seq<Entry>, i: nat): nat
    requires i < |input|
    decreases i, 1
  {
    if i == 0 || StopsBefore(lim, input, i) then 0
    else Overlapped(lim, input, i - 1) + BytesBetween(lim.grandparents, input[i - 1].key, input[i].key)
  }

  /** No output may hold entry `i` behind others. */
  predicate StopsBefore(lim: Limits, input: seq<Entry>, i: nat)
    requires i < |input|
    decreases i, 0
  {
    i > 0 &&
    Overlapped(lim, input, i - 1) + BytesBetween(lim.grandparents, input[i - 1].key, input[i].key) > lim.maxOverlap
  }

  /** Finished outputs, and the entries of the one under construction. */
  datatype Cut = Cut(closed: seq<seq<Entry>>, open: seq<Entry>)

  function Closed(c: Cut): Cut {
    if c.open == [] then c else Cut(c.closed + [c.open], [])
  }

  function Added(c: Cut, e: Entry, lim: Limits): Cut {
    var d := Cut(c.closed, c.open + [e]);
    if lim.written(d.open) >= lim.maxFileSize then Closed(d) else d
  }

  /** The outputs when the first `n` entries have been read. */
  ghost function Cuts(input: seq<Entry>, n: nat, smallest: nat, v: Version, level: nat, lim: Limits): Cut
    requires n <= |input|
  {
    if n == 0 then Cut([], [])
    else
      var c := Cuts(input, n - 1, smallest, v, level, lim);
      var d := if StopsBefore(lim, input, n - 1) then Closed(c) else c;
      if Drops(input, n - 1, smallest, v, level) then d else Added(d, input[n - 1], lim)
  }

  /** An output is finished as soon as it is big enough. */
  ghost predicate NotTooBig(f: seq<Entry>, lim: Limits) {
    forall n :: 0 < n < |f| ==> lim.written(f[..n]) < lim.maxFileSize
  }

  /** An output leaves behind a bounded number of bytes two levels below. */
  ghost predicate OverlapBounded(f: seq<Entry>, lim: Limits) {
    f != [] ==> BytesBetween(lim.grandparents, f[0].key, f[|f| - 1].key) <= lim.maxOverlap
  }

  /** Where outputs are cut.  Merging an output into the next level later will not involve
      more than the allowed bytes there, beyond the files at its two ends. */
  lemma {:induction false} CutsAreBounded(input: seq<Entry>, n: nat, smallest: nat, v: Version, level: nat, lim: Limits)
    requires n <= |input| && Sorted(input)
    ensures var c := Cuts(input, n, smallest, v, level, lim);
      && (forall k :: 0 <= k < |c.closed| ==>
        c.closed[k] != [] && NotTooBig(c.closed[k], lim) && OverlapBounded(c.closed[k], lim))
      && NotTooBig(c.open, lim) && OverlapBounded(c.open, lim)
      && (c.open != [] ==> lim.written(c.open) < lim.maxFileSize && OpenSince(input, n, c.open, lim))
  {
    hide Drops, NotTooBig, OverlapBounded, OpenSince, StopsBefore;
    if n == 0 {
      EmptyIsBounded(input, lim);
    } else {
      CutsAreBounded(input, n - 1, smallest, v, level, lim);
      var c := Cuts(input, n - 1, smallest, v, level, lim);
      var d := if StopsBefore(lim, input, n - 1) then Closed(c) else c;
      EmptyIsBounded(input, lim);
      if d.open != [] {
        StillOpen(input, n, d.open, lim);
      }
      if !Drops(input, n - 1, smallest, v, level) {
        OneMoreIsBounded(input, n, d.open, lim);
      }
    }
  }

  /** The open output began at some entry, and the count has not begun anew since. */
  ghost predicate OpenSince(input: seq<Entry>, n: nat, open: seq<Entry>, lim: Limits) {
    && open != [] && 0 < n <= |input|
    && !Less(input[n - 1].key, open[|open| - 1].key) && !Less(open[|open| - 1].key, open[0].key)
    && BytesBetween(lim.grandparents, open[0].key, input[n - 1].key) <= Overlapped(lim, input, n - 1)
  }

  lemma EmptyIsBounded(input: seq<Entry>, lim: Limits)
    ensures NotTooBig([], lim) && OverlapBounded([], lim)
  {
  }

  lemma {:induction false} EndBeforeMonotone(files: seq<File>, a: InternalKey, b: InternalKey)
    requires !Less(b, a)
    ensures EndBefore(files, a) <= EndBefore(files, b)
  {
    if files != [] && Less(files[0].largest, a) {
      EndBeforeMonotone(files[1..], a, b);
    }
  }

  lemma {:induction false} SizeOfConcat(a: seq<File>, b: seq<File>)
    ensures TotalFileSize(a + b) == TotalFileSize(a) + TotalFileSize(b)
  {
    if a == [] {
      assert a + b == b;
    } else {
      SizeOfConcat(a[1..], b);
      assert (a + b)[1..] == a[1..] + b;
    }
  }

  /** Bytes add up along ascending keys. */
  lemma BytesInTurn(files: seq<File>, a: InternalKey, b: InternalKey, c: InternalKey)
    requires !Less(b, a) && !Less(c, b)
    ensures BytesBetween(files, a, c) == BytesBetween(files, a, b) + BytesBetween(files, b, c)
  {
    EndBeforeMonotone(files, a, b);
    EndBeforeMonotone(files, b, c);
    hide EndBefore, TotalFileSize;
    var i, j, k := EndBefore(files, a), EndBefore(files, b), EndBefore(files, c);
    SizeOfConcat(files[i..j], files[j..k]);
    assert files[i..j] + files[j..k] == files[i..k];
    NotAfter(a, b, c);
    EndBeforeMonotone(files, a, c);
  }

  lemma NotAfter(a: InternalKey, b: InternalKey, c: InternalKey)
    requires !Less(b, a) && !Less(c, b)
    ensures !Less(c, a)
  {
  }

  lemma OverlapWithin(lim: Limits, input: seq<Entry>, i: nat)
    requires i < |input|
    ensures Overlapped(lim, input, i) <= lim.maxOverlap
  {
  }

  lemma StillOpen(input: seq<Entry>, n: nat, open: seq<Entry>, lim: Limits)
    requires 1 < n <= |input| && Sorted(input) && OpenSince(input, n - 1, open, lim) && !StopsBefore(lim, input, n - 1)
    ensures OpenSince(input, n, open, lim)
  {
    hide StopsBefore, Overlapped, BytesBetween;
    assert Less(input[n - 2].key, input[n - 1].key);
    BytesInTurn(lim.grandparents, open[0].key, input[n - 2].key, input[n - 1].key);
    NoStop(lim, input, n - 1);
  }

  lemma NoStop(lim: Limits, input: seq<Entry>, i: nat)
    requires 0 < i < |input| && !StopsBefore(lim, input, i)
    ensures Overlapped(lim, input, i)
         == Overlapped(lim, input, i - 1) + BytesBetween(lim.grandparents, input[i - 1].key, input[i].key)
  {
  }

  lemma OneMoreIsBounded(input: seq<Entry>, n: nat, open: seq<Entry>, lim: Limits)
    requires 0 < n <= |input| && (open != [] ==> OpenSince(input, n, open, lim))
    requires NotTooBig(open, lim) && (open != [] ==> lim.written(open) < lim.maxFileSize)
    ensures var f := open + [input[n - 1]];
      NotTooBig(f, lim) && OverlapBounded(f, lim) && OpenSince(input, n, f, lim)
  {
    hide Overlapped, BytesBetween;
    var f := open + [input[n - 1]];
    OverlapWithin(lim, input, n - 1);
    forall m | 0 < m < |f|
      ensures lim.written(f[..m]) < lim.maxFileSize
    {
      assert f[..m] == open[..m];
      assert m == |open| ==> open[..m] == open;
    }
    if open == [] {
      NothingBetween(lim.grandparents, f[0].key);
    }
  }

  lemma NothingBetween(files: seq<File>, k: InternalKey)
    ensures BytesBetween(files, k, k) == 0
  {
  }

  /** Compaction::ShouldStopBefore and the fields that it keeps. */
  class GrandparentCursor {
    const lim: Limits
    var grandparentIndex: nat
    var seenKey: bool
    var overlappedBytes: nat

    constructor (lim: Limits)
      ensures this.lim == lim && IsAfter([], 0)
    {
      this.lim := lim;
      grandparentIndex, seenKey, overlappedBytes := 0, false, 0;
    }

    ghost predicate IsAfter(input: seq<Entry>, i: nat)
      requires i <= |input|
      reads this
    {
      if i == 0 then grandparentIndex == 0 && !seenKey && overlappedBytes == 0
      else
        && seenKey && grandparentIndex == EndBefore(lim.grandparents, input[i - 1].key)
        && overlappedBytes == Overlapped(lim, input, i - 1)
    }

    method ShouldStopBefore(input: seq<Entry>, i: nat) returns (stop: bool)
      requires i < |input| && Sorted(input) && IsAfter(input, i)
      modifies this
      ensures stop == StopsBefore(lim, input, i) && IsAfter(input, i + 1)
    {
      hide Overlapped, StopsBefore, TotalFileSize, Sorted, EndBefore, Less;
      var files, key := lim.grandparents, input[i].key;
      if i > 0 {
        KeysAscend(input, i);
        EndBeforeMonotone(files, input[i - 1].key, key);
      }
      SizeOfNone();
      ghost var start := grandparentIndex;
      assert files[start..start] == [];
      while grandparentIndex < |files| && Less(files[grandparentIndex].largest, key)
        invariant start <= grandparentIndex <= EndBefore(files, key)
        invariant seenKey == old(seenKey)
        invariant overlappedBytes == old(overlappedBytes) + if seenKey then TotalFileSize(files[start..grandparentIndex]) else 0
      {
        SizeOfConcat(files[start..grandparentIndex], [files[grandparentIndex]]);
        SizeOfOne(files[grandparentIndex]);
        assert files[start..grandparentIndex] + [files[grandparentIndex]] == files[start..grandparentIndex + 1];
        if seenKey {
          overlappedBytes := overlappedBytes + files[grandparentIndex].size;
        }
        grandparentIndex := grandparentIndex + 1;
      }
      seenKey := true;
      Counted(lim, input, i, overlappedBytes);
      if overlappedBytes > lim.maxOverlap {
        overlappedBytes := 0;
        stop := true;
      } else {
        stop := false;
      }
    }
  }

  lemma SizeOfNone()
    ensures TotalFileSize([]) == 0
  {
  }

  lemma SizeOfOne(f: File)
    ensures TotalFileSize([f]) == f.size
  {
  }

  lemma KeysAscend(input: seq<Entry>, i: nat)
    requires Sorted(input) && 0 < i < |input|
    ensures Less(input[i - 1].key, input[i].key) && !Less(input[i].key, input[i - 1].key)
  {
  }

  lemma Counted(lim: Limits, input: seq<Entry>, i: nat, bytes: nat)
    requires i < |input|
    requires bytes == if i == 0 then 0
      else Overlapped(lim, input, i - 1) + BytesBetween(lim.grandparents, input[i - 1].key, input[i].key)
    ensures StopsBefore(lim, input, i) <==> bytes > lim.maxOverlap
    ensures Overlapped(lim, input, i) == if bytes > lim.maxOverlap then 0 else bytes
  {
  }

  function FileEntries(files: seq<File>): (r: seq<seq<Entry>>)
    ensures |r| == |files| && forall i :: 0 <= i < |r| ==> r[i] == files[i].entries
  {
    seq(|files|, i requires 0 <= i < |files| => files[i].entries)
  }

  /** CompactionState: the finished output files and the one under construction. */
  class CompactionState {
    const first: nat
    const lim: Limits
    var outputs: seq<File>
    var builder: seq<Entry>

    ghost predicate Valid()
      reads this
    {
      && ValidOutputs(outputs, first)
      && (forall k :: 0 <= k < |outputs| ==> outputs[k].size == lim.size(outputs[k].entries))
      && Sorted(builder)
    }

    /** Everything written so far, and how it is cut. */
    ghost function Written(): seq<Entry>
      reads this
    {
      Concat(outputs) + builder
    }

    ghost function Abs(): Cut
      reads this
    {
      Cut(FileEntries(outputs), builder)
    }

    constructor (first: nat, lim: Limits)
      ensures Valid() && this.first == first && this.lim == lim
      ensures Written() == [] && Abs() == Cut([], []) && builder == []
    {
      this.first, this.lim := first, lim;
      outputs, builder := [], [];
    }

    lemma AllWritten()
      requires Valid() && Abs().open == []
      ensures ValidOutputs(outputs, first) && FileEntries(outputs) == Abs().closed && Concat(outputs) == Written()
      ensures forall k :: 0 <= k < |outputs| ==> outputs[k].size == lim.size(outputs[k].entries)
    {
    }

    /** FinishCompactionOutputFile, when a file is open. */
    method FinishOutput()
      requires Valid()
      modifies this
      ensures Valid() && Written() == old(Written()) && Abs() == Closed(old(Abs()))
    {
      if builder != [] {
        var f := MakeFile(first + |outputs|, lim.size(builder), builder);
        ConcatSnoc(outputs, f);
        outputs := outputs + [f];
        builder := [];
        assert Abs() == Closed(old(Abs()));
      }
    }

    /** Add to the open file, opening one if necessary, and close it if that made it big
        enough. */
    method Add(e: Entry)
      requires Valid() && forall x :: x in builder ==> Less(x.key, e.key)
      modifies this
      ensures Valid() && Written() == old(Written()) + [e] && Abs() == Added(old(Abs()), e, lim)
      ensures forall x :: x in builder ==> x in old(builder) || x == e
    {
      builder := builder + [e];
      assert Written() == old(Written()) + [e];
      if lim.written(builder) >= lim.maxFileSize {
        FinishOutput();
      }
    }
  }

  /** The test at the heart of the loop. */
  method ShouldDrop(cursor: BaseLevelCursor, key: InternalKey, lastSequenceForKey: nat, smallest: nat) returns (drop: bool)
    requires cursor.Valid() && cursor.Passed(key.user)
    modifies cursor.levelPtrs
    ensures cursor.Valid() && cursor.Passed(key.user)
    ensures drop <==> DropsKey(key, lastSequenceForKey, smallest, cursor.version, cursor.level)
  {
    drop := false;
    if lastSequenceForKey <= smallest {
      drop := true;
    } else if key.vtype == Deletion && key.seqno <= smallest {
      drop := cursor.IsBaseLevelForKey(key.user);
    }
  }

  /** What the loop remembers of the previous entry. */
  class LastKey {
    var hasCurrentUserKey: bool
    var currentUserKey: UserKey
    var lastSequenceForKey: nat

    constructor ()
      ensures !hasCurrentUserKey
    {
      hasCurrentUserKey, currentUserKey, lastSequenceForKey := false, 0.0, MAX_SEQUENCE;
    }

    ghost predicate IsAfter(input: seq<Entry>, i: nat)
      requires i <= |input|
      reads this
    {
      if i == 0 then !hasCurrentUserKey
      else hasCurrentUserKey && currentUserKey == input[i - 1].key.user && lastSequenceForKey == input[i - 1].key.seqno
    }

    /** The sequence number to compare with the snapshot, for the entry at hand. */
    method Arrive(input: seq<Entry>, i: nat) returns (last: nat)
      requires i < |input| && IsAfter(input, i)
      modifies this
      ensures last == LastSequenceForKey(input, i) && IsAfter(input, i + 1)
    {
      var key := input[i].key;
      if !hasCurrentUserKey || key.user != currentUserKey {
        currentUserKey := key.user;
        hasCurrentUserKey := true;
        lastSequenceForKey := MAX_SEQUENCE;
      }
      last := lastSequenceForKey;
      lastSequenceForKey := key.seqno;
    }
  }

  /** One turn of the loop, once the bookkeeping for the user key is done. */
  method ProcessEntry(cursor: BaseLevelCursor, compact: CompactionState, e: Entry,
                      lastSequenceForKey: nat, smallest: nat, stopBefore: bool)
    returns (ghost drop: bool)
    requires cursor.Valid() && cursor.Passed(e.key.user) && compact.Valid()
    requires forall x :: x in compact.builder ==> Less(x.key, e.key)
    modifies cursor.levelPtrs, compact
    ensures cursor.Valid() && cursor.Passed(e.key.user)
    ensures drop <==> DropsKey(e.key, lastSequenceForKey, smallest, cursor.version, cursor.level)
    ensures compact.Valid() && compact.Written() == old(compact.Written()) + (if drop then [] else [e])
    ensures var d := if stopBefore then Closed(old(compact.Abs())) else old(compact.Abs());
      compact.Abs() == if drop then d else Added(d, e, compact.lim)
    ensures forall x :: x in compact.builder ==> x == e || Less(x.key, e.key)
  {
    if stopBefore {
      compact.FinishOutput();
    }
    var d := ShouldDrop(cursor, e.key, lastSequenceForKey, smallest);
    if !d {
      compact.Add(e);
    }
    drop := d;
  }

  lemma NothingCut(input: seq<Entry>, smallest: nat, v: Version, level: nat, lim: Limits)
    ensures Kept(input, 0, smallest, v, level) == [] && Cuts(input, 0, smallest, v, level, lim) == Cut([], [])
  {
  }

  lemma OneMore(input: seq<Entry>, i: nat, smallest: nat, v: Version, level: nat, lim: Limits, drop: bool)
    requires i < |input| && drop == DropsKey(input[i].key, LastSequenceForKey(input, i), smallest, v, level)
    ensures Kept(input, i + 1, smallest, v, level) == Kept(input, i, smallest, v, level) + if drop then [] else [input[i]]
    ensures var c := Cuts(input, i, smallest, v, level, lim);
      var d := if StopsBefore(lim, input, i) then Closed(c) else c;
      Cuts(input, i + 1, smallest, v, level, lim) == if drop then d else Added(d, input[i], lim)
  {
    hide DropsKey, StopsBefore;
  }

  /** The loop before entry `i`. */
  ghost predicate LoopAt(cursor: BaseLevelCursor, compact: CompactionState, grandparents: GrandparentCursor,
                         lastKey: LastKey, input: seq<Entry>, i: nat, smallest: nat)
    reads cursor.levelPtrs, compact, grandparents, lastKey
  {
    && i <= |input| && cursor.Valid() && compact.Valid() && grandparents.lim == compact.lim
    && lastKey.IsAfter(input, i) && grandparents.IsAfter(input, i)
    && (i < |input| ==> cursor.Passed(input[i].key.user))
    && compact.Written() == Kept(input, i, smallest, cursor.version, cursor.level)
    && compact.Abs() == Cuts(input, i, smallest, cursor.version, cursor.level, compact.lim)
    && (i < |input| ==> forall e :: e in compact.builder ==> Less(e.key, input[i].key))
  }

  /** One entry. */
  method Step(cursor: BaseLevelCursor, compact: CompactionState, grandparents: GrandparentCursor, lastKey: LastKey,
              input: seq<Entry>, i: nat, smallest: nat)
    requires i < |input| && Sorted(input) && LoopAt(cursor, compact, grandparents, lastKey, input, i, smallest)
    modifies cursor.levelPtrs, compact, grandparents, lastKey
    ensures LoopAt(cursor, compact, grandparents, lastKey, input, i + 1, smallest)
  {
    hide DropsKey, Kept, Cuts, Drops, StopsBefore, GrandparentCursor.IsAfter, LastKey.IsAfter, BaseLevelCursor.Passed;
    hide CompactionState.Valid, CompactionState.Abs, CompactionState.Written, BaseLevelCursor.Valid;
    var stop := grandparents.ShouldStopBefore(input, i);
    var last := lastKey.Arrive(input, i);
    ghost var drop := ProcessEntry(cursor, compact, input[i], last, smallest, stop);
    OneMore(input, i, smallest, cursor.version, cursor.level, compact.lim, drop);
    NextKeyIsLater(input, i);
    if i + 1 < |input| {
      cursor.PassesOn(input[i].key.user, input[i + 1].key.user);
    }
  }

  /** DoCompactionWork.  Together the outputs hold exactly the kept entries, and they are cut
      where the limits say. */
  method DoCompactionWork(cursor: BaseLevelCursor, input: seq<Entry>, smallest: nat, lim: Limits, first: nat)
    returns (outputs: seq<File>)
    requires cursor.AtStart() && Sorted(input)
    modifies cursor.levelPtrs
    ensures ValidOutputs(outputs, first)
    ensures Concat(outputs) == Kept(input, |input|, smallest, cursor.version, cursor.level)
    ensures FileEntries(outputs) == Closed(Cuts(input, |input|, smallest, cursor.version, cursor.level, lim)).closed
    ensures forall k :: 0 <= k < |outputs| ==> outputs[k].size == lim.size(outputs[k].entries)
  {
    var compact := new CompactionState(first, lim);
    var grandparents := new GrandparentCursor(lim);
    var lastKey := new LastKey();
    NothingCut(input, smallest, cursor.version, cursor.level, lim);
    assert LoopAt(cursor, compact, grandparents, lastKey, input, 0, smallest);
    hide LoopAt, Kept, Cuts, ValidOutputs;
    for i := 0 to |input|
      invariant LoopAt(cursor, compact, grandparents, lastKey, input, i, smallest)
      invariant fresh(compact) && fresh(lastKey) && fresh(grandparents)
    {
      Step(cursor, compact, grandparents, lastKey, input, i, smallest);
    }
    LoopEnds(cursor, compact, grandparents, lastKey, input, smallest);
    compact.FinishOutput();
    compact.AllWritten();
    outputs := compact.outputs;
  }

  lemma LoopEnds(cursor: BaseLevelCursor, compact: CompactionState, grandparents: GrandparentCursor, lastKey: LastKey,
                 input: seq<Entry>, smallest: nat)
    requires LoopAt(cursor, compact, grandparents, lastKey, input, |input|, smallest)
    ensures compact.Valid() && compact.Written() == Kept(input, |input|, smallest, cursor.version, cursor.level)
    ensures compact.Abs() == Cuts(input, |input|, smallest, cursor.version, cursor.level, compact.lim)
  {
  }

  lemma NextKeyIsLater(input: seq<Entry>, i: nat)
    requires Sorted(input) && i < |input|
    ensures i + 1 < |input| ==> Less(input[i].key, input[i + 1].key) && input[i].key.user <= input[i + 1].key.user
  {
  }
}
