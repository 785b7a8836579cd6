/** The levels of table files and reads through them (db/version_set.cc). */
module Versions {
  import opened Wrappers
  import opened DbFormat
  import opened MultiVersionMap
  import opened Tables

  const NUM_LEVELS: nat := 7
  const MAX_MEM_COMPACT_LEVEL: nat := 2

  type Version = v: seq<seq<File>> | |v| == NUM_LEVELS
    witness [[], [], [], [], [], [], []]

  ghost predicate ValidFiles(files: seq<File>) {
    forall i :: 0 <= i < |files| ==> ValidFile(files[i])
  }

  /** Levels above 0: files ordered and disjoint by internal key.  Two neighbours may
      share a user key, with its newer entries in the earlier file. */
  ghost predicate LevelSorted(files: seq<File>) {
    forall i, j :: 0 <= i < j < |files| ==> Less(files[i].largest, files[j].smallest)
  }

  ghost predicate DistinctNumbers(files: seq<File>) {
    forall i, j :: 0 <= i < j < |files| ==> files[i].number != files[j].number
  }

  ghost predicate ValidVersion(v: Version) {
    && (forall l :: 0 <= l < NUM_LEVELS ==> ValidFiles(v[l]) && DistinctNumbers(v[l]))
    && (forall l :: 1 <= l < NUM_LEVELS ==> LevelSorted(v[l]))
  }

  ghost function LevelEntries(files: seq<File>): set<Entry> {
    set f, e | f in files && e in f.entries :: e
  }

  ghost function VersionEntries(v: Version): set<Entry> {
    set l, e | 0 <= l < NUM_LEVELS && e in LevelEntries(v[l]) :: e
  }

  ghost predicate NewestNumberAbove(files: seq<File>) {
    forall f, g :: f in files && g in files && f.number > g.number ==>
      Above(ToSet(f.entries), ToSet(g.entries))
  }

  /** Entries never hop over older entries of the same user key: per user key, level 0 by
      file number, then level 1, level 2 and so on hold older and older data. */
  ghost predicate ReadOrder(v: Version) {
    && NewestNumberAbove(v[0])
    && forall l, m :: 0 <= l < m < NUM_LEVELS ==> Above(LevelEntries(v[l]), LevelEntries(v[m]))
  }

  /** FindFile: binary search for the first file whose largest key is not before `key`. */
  method FindFile(files: seq<File>, key: InternalKey) returns (index: nat)
    requires ValidFiles(files) && LevelSorted(files)
    ensures index <= |files|
    ensures forall i :: 0 <= i < index ==> Less(files[i].largest, key)
    ensures forall i :: index <= i < |files| ==> LessEq(key, files[i].largest)
  {
    var left, right := 0, |files|;
    while left < right
      invariant 0 <= left <= right <= |files|
      invariant forall i :: 0 <= i < left ==> Less(files[i].largest, key)
      invariant forall i :: right <= i < |files| ==> LessEq(key, files[i].largest)
    {
      var mid := (left + right) / 2;
      LargestAscends(files);
      if Less(files[mid].largest, key) {
        left := mid + 1;
      } else {
        right := mid;
      }
    }
    index := right;
  }

  lemma LargestAscends(files: seq<File>)
    requires ValidFiles(files) && LevelSorted(files)
    ensures forall i, j :: 0 <= i < j < |files| ==> Less(files[i].largest, files[j].largest)
    ensures forall i, j :: 0 <= i < j < |files| ==> Less(files[i].smallest, files[j].smallest)
  {
    forall i, j | 0 <= i < j < |files|
      ensures Less(files[i].largest, files[j].largest) && Less(files[i].smallest, files[j].smallest)
    {
      WithinBounds(files[j], files[j].entries[0]);
      WithinBounds(files[i], files[i].entries[0]);
    }
  }

  predicate CoversUserKey(f: File, u: UserKey) {
    f.smallest.user <= u <= f.largest.user
  }

  /** One level above 0 of Version::Get: at most one file can decide the read. */
  method GetFromSortedLevel(files: seq<File>, u: UserKey, s: nat) returns (p: Probe)
    requires ValidFiles(files) && LevelSorted(files)
    ensures Answers(LevelEntries(files), u, s, p)
  {
    var index := FindFile(files, LookupKey(u, s));
    forall i, e | 0 <= i < index && e in files[i].entries
      ensures !Visible(e, u, s)
    {
      WithinBounds(files[i], e);
    }
    if index >= |files| {
      return NotFound;
    }
    var f := files[index];
    forall j, e | index < j < |files| && e in files[j].entries
      ensures Less(f.largest, e.key)
    {
      WithinBounds(files[j], e);
    }
    if u < f.smallest.user {
      forall j, e | index <= j < |files| && e in files[j].entries
        ensures !Visible(e, u, s)
      {
        WithinBounds(files[j], e);
        WithinBounds(f, f.entries[0]);
      }
      return NotFound;
    }
    p := ProbeRun(f.entries, u, s);
    ProbeFindsNewest(f.entries, u, s);
    SortedLevelDecided(files, index, u, s, p);
  }

  /** No entry at or after the lookup key precedes the one found by the probe. */
  lemma NotBeforeProbe(files: seq<File>, index: nat, k: nat, target: InternalKey, j: nat, e: Entry)
    requires ValidFiles(files) && LevelSorted(files) && index < |files| && j < |files|
    requires forall i :: 0 <= i < index ==> Less(files[i].largest, target)
    requires k < |files[index].entries|
    requires forall i :: 0 <= i < k ==> Less(files[index].entries[i].key, target)
    requires e in files[j].entries && LessEq(target, e.key)
    ensures LessEq(files[index].entries[k].key, e.key)
  {
    WithinBounds(files[j], e);
    var f := files[index];
    if j > index {
      WithinBounds(f, f.entries[k]);
      assert Less(f.largest, files[j].smallest);
    } else if j == index {
      var i :| 0 <= i < |f.entries| && f.entries[i] == e;
    }
  }

  /** The file that holds the first key at or after the lookup key decides the level. */
  lemma SortedLevelDecided(files: seq<File>, index: nat, u: UserKey, s: nat, p: Probe)
    requires ValidFiles(files) && LevelSorted(files) && index < |files|
    requires forall i :: 0 <= i < index ==> Less(files[i].largest, LookupKey(u, s))
    requires LessEq(LookupKey(u, s), files[index].largest)
    requires p == ProbeRun(files[index].entries, u, s)
    ensures Answers(LevelEntries(files), u, s, p)
  {
    var f := files[index];
    var k := SeekIndex(f.entries, LookupKey(u, s));
    assert k < |f.entries|;
    var hit := f.entries[k];
    forall e | e in LevelEntries(files) && Visible(e, u, s)
      ensures hit.key.user == u && e.key.seqno <= hit.key.seqno
    {
      var j :| 0 <= j < |files| && e in files[j].entries;
      NotBeforeProbe(files, index, k, LookupKey(u, s), j, e);
    }
    if hit.key.user == u {
      assert f in files && hit in f.entries;
      assert IsNewest(LevelEntries(files), u, s, hit);
    }
  }

  /** std::sort with NewestFirst. */
  function InsertByNumber(f: File, files: seq<File>): (r: seq<File>)
    ensures multiset(r) == multiset(files) + multiset{f}
  {
    if files == [] || f.number > files[0].number then [f] + files
    else
      assert files == [files[0]] + files[1..];
      [files[0]] + InsertByNumber(f, files[1..])
  }

  function SortNewestFirst(files: seq<File>): (r: seq<File>)
    ensures multiset(r) == multiset(files)
  {
    if files == [] then []
    else
      assert files == [files[0]] + files[1..];
      InsertByNumber(files[0], SortNewestFirst(files[1..]))
  }

  lemma SortKeepsMembers(files: seq<File>)
    ensures forall f :: f in SortNewestFirst(files) <==> f in files
  {
    forall f
      ensures f in SortNewestFirst(files) <==> f in files
    {
      assert f in multiset(SortNewestFirst(files)) <==> f in multiset(files);
    }
  }

  ghost predicate NumbersDescend(files: seq<File>) {
    forall i, j :: 0 <= i < j < |files| ==> files[i].number > files[j].number
  }

  lemma {:induction false} InsertKeepsDescending(f: File, files: seq<File>)
    requires NumbersDescend(files)
    requires forall g :: g in files ==> g.number != f.number
    ensures NumbersDescend(InsertByNumber(f, files))
  {
    if files != [] && f.number <= files[0].number {
      var r := InsertByNumber(f, files[1..]);
      InsertKeepsDescending(f, files[1..]);
      forall g | g in r
        ensures g.number < files[0].number
      {
        assert g in multiset(r);
        assert g == f || g in files[1..];
      }
    }
  }

  lemma {:induction false} SortDescends(files: seq<File>)
    requires DistinctNumbers(files)
    ensures NumbersDescend(SortNewestFirst(files))
  {
    if files != [] {
      var r := SortNewestFirst(files[1..]);
      SortDescends(files[1..]);
      forall g | g in r
        ensures g.number != files[0].number
      {
        assert g in multiset(r);
      }
      InsertKeepsDescending(files[0], r);
    }
  }

  /** The files of level 0 that can hold the user key. */
  method CoveringFiles(files: seq<File>, u: UserKey) returns (tmp: seq<File>)
    requires DistinctNumbers(files)
    ensures forall f :: f in tmp <==> f in files && CoversUserKey(f, u)
    ensures DistinctNumbers(tmp)
  {
    tmp := [];
    for i := 0 to |files|
      invariant forall f :: f in tmp <==> f in files[..i] && CoversUserKey(f, u)
      invariant DistinctNumbers(tmp)
    {
      var f := files[i];
      assert forall g :: g in tmp ==> g.number != f.number;
      if CoversUserKey(f, u) {
        tmp := tmp + [f];
      }
    }
    assert files[..|files|] == files;
  }

  /** Level 0 of Version::Get: files may overlap, so search all that cover the user key
      from the newest to the oldest. */
  method GetFromLevel0(files: seq<File>, u: UserKey, s: nat) returns (p: Probe)
    requires ValidFiles(files) && DistinctNumbers(files) && NewestNumberAbove(files)
    ensures Answers(LevelEntries(files), u, s, p)
  {
    hide NumbersDescend, NewestNumberAbove, Sorted, DistinctNumbers;
    var tmp := CoveringFiles(files, u);
    var sorted := SortNewestFirst(tmp);
    SortDescends(tmp);
    SortKeepsMembers(tmp);
    p := NotFound;
    for i := 0 to |sorted|
      invariant p == NotFound
      invariant forall j :: 0 <= j < i ==> Answers(ToSet(sorted[j].entries), u, s, NotFound)
    {
      assert sorted[i] in sorted;
      assert sorted[i] in files;
      p := ProbeRun(sorted[i].entries, u, s);
      ProbeFindsNewest(sorted[i].entries, u, s);
      if p != NotFound {
        Level0Decided(files, sorted, i, u, s, p);
        return;
      }
    }
    Level0Empty(files, sorted, u, s);
  }

  lemma Level0Empty(files: seq<File>, sorted: seq<File>, u: UserKey, s: nat)
    requires ValidFiles(files)
    requires forall g :: g in sorted <==> g in files && CoversUserKey(g, u)
    requires forall j :: 0 <= j < |sorted| ==> Answers(ToSet(sorted[j].entries), u, s, NotFound)
    ensures Answers(LevelEntries(files), u, s, NotFound)
  {
    forall f, e | f in files && e in f.entries
      ensures !Visible(e, u, s)
    {
      NoneInFile(files, sorted, |sorted|, u, s, f, e);
    }
  }

  lemma NoneInFile(files: seq<File>, sorted: seq<File>, i: nat, u: UserKey, s: nat, f: File, e: Entry)
    requires ValidFiles(files) && i <= |sorted|
    requires forall g :: g in sorted <==> g in files && CoversUserKey(g, u)
    requires forall j :: 0 <= j < i ==> Answers(ToSet(sorted[j].entries), u, s, NotFound)
    requires f in files && e in f.entries
    requires f in sorted ==> exists j :: 0 <= j < i && sorted[j] == f
    ensures !Visible(e, u, s)
  {
    WithinBounds(f, e);
    if f in sorted {
      var j :| 0 <= j < i && sorted[j] == f;
      assert e in ToSet(sorted[j].entries);
    }
  }

  /** Nothing in another file is newer than what file `i` of the search order answers with. */
  lemma NoneNewer(files: seq<File>, sorted: seq<File>, i: nat, u: UserKey, s: nat, f: File, e: Entry, n: Entry)
    requires ValidFiles(files) && NewestNumberAbove(files) && NumbersDescend(sorted) && i < |sorted|
    requires forall g :: g in sorted <==> g in files && CoversUserKey(g, u)
    requires forall j :: 0 <= j < i ==> Answers(ToSet(sorted[j].entries), u, s, NotFound)
    requires IsNewest(ToSet(sorted[i].entries), u, s, n)
    requires f in files && e in f.entries && Visible(e, u, s)
    ensures e.key.seqno <= n.key.seqno
  {
    if !(f in sorted ==> exists j :: 0 <= j < i && sorted[j] == f) {
      var j :| i <= j < |sorted| && sorted[j] == f;
      assert e in ToSet(f.entries);
      if j > i {
        assert Above(ToSet(sorted[i].entries), ToSet(f.entries));
      }
    } else {
      NoneInFile(files, sorted, i, u, s, f, e);
    }
  }

  lemma Level0Decided(files: seq<File>, sorted: seq<File>, i: nat, u: UserKey, s: nat, p: Probe)
    requires ValidFiles(files) && NewestNumberAbove(files) && NumbersDescend(sorted) && i < |sorted|
    requires forall g :: g in sorted <==> g in files && CoversUserKey(g, u)
    requires forall j :: 0 <= j < i ==> Answers(ToSet(sorted[j].entries), u, s, NotFound)
    requires p != NotFound && Answers(ToSet(sorted[i].entries), u, s, p)
    ensures Answers(LevelEntries(files), u, s, p)
  {
    var n :| IsNewest(ToSet(sorted[i].entries), u, s, n) && ValueOf(n) == ProbeValue(p);
    forall f, e | f in files && e in f.entries && Visible(e, u, s)
      ensures e.key.seqno <= n.key.seqno
    {
      NoneNewer(files, sorted, i, u, s, f, e, n);
    }
    assert sorted[i] in files && n in LevelEntries(files);
    assert IsNewest(LevelEntries(files), u, s, n);
  }

  /** Version::Get: level by level, stopping at the first level that knows the key. */
  method Get(v: Version, u: UserKey, s: nat) returns (r: Option<Bytes>)
    requires ValidVersion(v) && ReadOrder(v) && UniqueSeqnos(VersionEntries(v))
    ensures r == Read(VersionEntries(v), u, s)
  {
    for level := 0 to NUM_LEVELS
      invariant forall l, e :: 0 <= l < level && e in LevelEntries(v[l]) ==> !Visible(e, u, s)
    {
      var p;
      if level == 0 {
        p := GetFromLevel0(v[0], u, s);
      } else {
        p := GetFromSortedLevel(v[level], u, s);
      }
      if p != NotFound {
        LevelDecides(v, level, u, s, p);
        return ProbeValue(p);
      }
    }
    ReadAbsent(VersionEntries(v), u, s);
    return None;
  }

  lemma LevelDecides(v: Version, level: nat, u: UserKey, s: nat, p: Probe)
    requires level < NUM_LEVELS && ReadOrder(v) && UniqueSeqnos(VersionEntries(v))
    requires forall l, e :: 0 <= l < level && e in LevelEntries(v[l]) ==> !Visible(e, u, s)
    requires Answers(LevelEntries(v[level]), u, s, p) && p != NotFound
    ensures Read(VersionEntries(v), u, s) == ProbeValue(p)
  {
    forall n | IsNewest(LevelEntries(v[level]), u, s, n)
      ensures IsNewest(VersionEntries(v), u, s, n)
    {
      forall l, e | 0 <= l < NUM_LEVELS && e in LevelEntries(v[l]) && Visible(e, u, s)
        ensures e.key.seqno <= n.key.seqno
      {
        if l > level {
          assert Above(LevelEntries(v[level]), LevelEntries(v[l]));
        }
      }
    }
    AnswersRead(VersionEntries(v), u, s, p);
  }
}
