/** Reading the inputs of a compaction as one sorted run
    (VersionSet::MakeInputIterator in db/version_set.cc). */
module InputIterators {
  import opened DbFormat
  import opened MultiVersionMap
  import opened Tables
  import opened Versions
  import opened CompactionInputs
  import opened Cursors
  import opened Merger
  import opened TwoLevel
  import opened Engine
  import opened EngineWrites

  function PerFile(files: seq<File>): (r: seq<seq<Entry>>)
    ensures |r| == |files|
  {
    seq(|files|, i requires 0 <= i < |files| => files[i].entries)
  }

  /** The runs to merge: each file of level 0 by itself, the files of another level in a row,
      which is what a two-level iterator walks. */
  function Runs(c: Inputs): seq<seq<Entry>> {
    UpperRuns(c) + LowerRuns(c)
  }

  function UpperRuns(c: Inputs): seq<seq<Entry>> {
    if c.level == 0 then PerFile(c.upper) else [Flat(PerFile(c.upper))]
  }

  function LowerRuns(c: Inputs): seq<seq<Entry>> {
    if c.lower == [] then [] else [Flat(PerFile(c.lower))]
  }

  ghost function EntriesOf(runs: seq<seq<Entry>>): set<Entry> {
    set i, e | 0 <= i < |runs| && e in runs[i] :: e
  }

  /** Runs that a merging iterator can merge: no entry is in two of them. */
  ghost predicate Mergeable(runs: seq<seq<Entry>>) {
    && (forall i :: 0 <= i < |runs| ==> Sorted(runs[i]))
    && (forall i, j, e :: 0 <= i < |runs| && 0 <= j < |runs| && e in runs[i] && e in runs[j] ==> i == j)
  }

  /** What the engine guarantees of the inputs until the compaction is done. */
  ghost predicate InputsReadable(c: Inputs) {
    && InputsInOrder(c) && ValidFiles(c.All())
    && (c.level == 0 ==> NewestNumberAbove(c.upper))
    && Above(LevelEntries(c.upper), LevelEntries(c.lower))
    && UniqueSeqnos(LevelEntries(c.All()))
  }

  // ---------- files in a row ----------

  lemma OneMoreFlat(files: seq<File>)
    requires files != []
    ensures var n := |files| - 1; Flat(PerFile(files)) == Flat(PerFile(files[..n])) + files[n].entries
  {
    assert PerFile(files)[..|files| - 1] == PerFile(files[..|files| - 1]);
  }

  lemma {:induction false} FlatHolds(files: seq<File>)
    ensures forall e :: e in Flat(PerFile(files)) <==> e in LevelEntries(files)
  {
    if files != [] {
      var n := |files| - 1;
      OneMoreFlat(files);
      FlatHolds(files[..n]);
      assert files == files[..n] + [files[n]];
      forall e
        ensures e in Flat(PerFile(files)) <==> e in LevelEntries(files)
      {
        assert e in LevelEntries(files) <==> e in LevelEntries(files[..n]) || e in files[n].entries;
      }
    }
  }

  lemma {:induction false} FlatSorted(files: seq<File>)
    requires ValidFiles(files) && LevelSorted(files)
    ensures Sorted(Flat(PerFile(files)))
  {
    if files != [] {
      var n := |files| - 1;
      OneMoreFlat(files);
      FlatSorted(files[..n]);
      FlatHolds(files[..n]);
      forall d, e | d in Flat(PerFile(files[..n])) && e in files[n].entries
        ensures Less(d.key, e.key)
      {
        var f :| f in files[..n] && d in f.entries;
        WithinBounds(f, d);
        WithinBounds(files[n], e);
        assert Less(f.largest, files[n].smallest);
      }
      ConcatSorted(Flat(PerFile(files[..n])), files[n].entries);
    }
  }

  lemma ConcatSorted(a: seq<Entry>, b: seq<Entry>)
    requires Sorted(a) && Sorted(b)
    requires forall d, e :: d in a && e in b ==> Less(d.key, e.key)
    ensures Sorted(a + b)
  {
    forall i, j | 0 <= i < j < |a + b|
      ensures Less((a + b)[i].key, (a + b)[j].key)
    {
      if i < |a| <= j {
        assert a[i] in a && b[j - |a|] in b;
      }
    }
  }

  // ---------- the runs ----------

  lemma PerFileHolds(files: seq<File>)
    ensures EntriesOf(PerFile(files)) == LevelEntries(files)
  {
    forall e | e in LevelEntries(files)
      ensures e in EntriesOf(PerFile(files))
    {
      var f :| f in files && e in f.entries;
      var i :| 0 <= i < |files| && files[i] == f;
      assert e in PerFile(files)[i];
    }
  }

  lemma RowHolds(files: seq<File>)
    ensures EntriesOf([Flat(PerFile(files))]) == LevelEntries(files)
  {
    FlatHolds(files);
    hide Flat, LevelEntries;
    var runs := [Flat(PerFile(files))];
    forall e | e in LevelEntries(files)
      ensures e in EntriesOf(runs)
    {
      assert e in runs[0];
    }
  }

  lemma RunsHold(c: Inputs)
    ensures EntriesOf(UpperRuns(c)) == LevelEntries(c.upper) && EntriesOf(LowerRuns(c)) == LevelEntries(c.lower)
    ensures EntriesOf(Runs(c)) == LevelEntries(c.All())
  {
    PerFileHolds(c.upper);
    RowHolds(c.upper);
    RowHolds(c.lower);
    hide Flat, PerFile;
    assert c.lower == [] ==> LevelEntries(c.lower) == {};
    EntriesOfConcat(UpperRuns(c), LowerRuns(c));
    LevelEntriesConcat(c.upper, c.lower);
  }

  lemma LevelEntriesConcat(a: seq<File>, b: seq<File>)
    ensures LevelEntries(a + b) == LevelEntries(a) + LevelEntries(b)
  {
    assert forall f :: f in a + b <==> f in a || f in b;
  }

  lemma EntriesOfConcat(a: seq<seq<Entry>>, b: seq<seq<Entry>>)
    ensures EntriesOf(a + b) == EntriesOf(a) + EntriesOf(b)
  {
    forall e | e in EntriesOf(a) + EntriesOf(b)
      ensures e in EntriesOf(a + b)
    {
      if i :| 0 <= i < |a| && e in a[i] {
        assert e in (a + b)[i];
      } else {
        var j :| 0 <= j < |b| && e in b[j];
        assert e in (a + b)[|a| + j];
      }
    }
  }

  lemma MergeableConcat(a: seq<seq<Entry>>, b: seq<seq<Entry>>)
    requires Mergeable(a) && Mergeable(b) && EntriesOf(a) !! EntriesOf(b)
    ensures Mergeable(a + b)
  {
    forall i, j, e | 0 <= i < |a + b| && 0 <= j < |a + b| && e in (a + b)[i] && e in (a + b)[j]
      ensures i == j
    {
      assert i < |a| ==> e in EntriesOf(a);
      assert j < |a| ==> e in EntriesOf(a);
      assert i >= |a| ==> e in b[i - |a|] && e in EntriesOf(b);
      assert j >= |a| ==> e in b[j - |a|] && e in EntriesOf(b);
    }
  }

  /** Two files of level 0 hold no entry in common, since one is newer than the other. */
  lemma Level0Mergeable(files: seq<File>)
    requires ValidFiles(files) && DistinctNumbers(files) && NewestNumberAbove(files)
    ensures Mergeable(PerFile(files))
  {
    forall i, j, e | 0 <= i < j < |files| && e in files[i].entries
      ensures e !in files[j].entries
    {
      NotInBoth(files[i], files[j], files, e);
    }
  }

  lemma NotInBoth(f: File, g: File, files: seq<File>, e: Entry)
    requires f in files && g in files && f.number != g.number && NewestNumberAbove(files) && e in f.entries
    ensures e !in g.entries
  {
    assert e in ToSet(f.entries) && (e in g.entries <==> e in ToSet(g.entries));
  }

  lemma PartsValid(a: seq<File>, b: seq<File>)
    requires ValidFiles(a + b)
    ensures ValidFiles(a) && ValidFiles(b)
  {
    assert forall i :: 0 <= i < |a| ==> a[i] == (a + b)[i];
    assert forall i :: 0 <= i < |b| ==> b[i] == (a + b)[|a| + i];
  }

  lemma RowMergeable(files: seq<File>)
    requires ValidFiles(files) && LevelSorted(files)
    ensures Mergeable([Flat(PerFile(files))])
  {
    FlatSorted(files);
    hide Flat, PerFile, Sorted;
  }

  lemma AboveDisjoint(a: set<Entry>, b: set<Entry>)
    requires Above(a, b)
    ensures a !! b
  {
    forall e | e in a
      ensures e !in b
    {
    }
  }

  lemma RunsMergeable(c: Inputs)
    requires InputsReadable(c)
    ensures Mergeable(Runs(c))
  {
    hide Flat, PerFile, LevelEntries, EntriesOf, ValidFiles, LevelSorted, DistinctNumbers, NewestNumberAbove, Mergeable;
    PartsValid(c.upper, c.lower);
    if c.level == 0 {
      Level0Mergeable(c.upper);
    } else {
      RowMergeable(c.upper);
    }
    RowMergeable(c.lower);
    NoRunsMergeable();
    RunsHold(c);
    AboveDisjoint(LevelEntries(c.upper), LevelEntries(c.lower));
    MergeableConcat(UpperRuns(c), LowerRuns(c));
  }

  lemma NoRunsMergeable()
    ensures Mergeable([])
  {
  }

  // ---------- the merging iterator ----------

  /** The order in which the iterator hands out the entries. */
  ghost function SortedUnion(db: set<Entry>): (r: seq<Entry>)
    requires UniqueSeqnos(db)
    ensures Sorted(r) && ToSet(r) == db
    decreases |db|
  {
    if db == {} then []
    else
      var e :| e in db;
      var rest := SortedUnion(db - {e});
      assert forall x :: x in rest ==> x in ToSet(rest);
      InsertKeepsSorted(rest, e);
      InsertSorted(rest, e)
  }

  /** Cursors over the runs are children that a merging iterator can have. */
  lemma CursorsFit(runs: seq<seq<Entry>>, list: seq<Cursor>, all: seq<Entry>)
    requires Mergeable(runs) && Sorted(all) && ToSet(all) == EntriesOf(runs)
    requires |list| == |runs| && forall k :: 0 <= k < |runs| ==> list[k].entries == runs[k]
    ensures forall i :: 0 <= i < |list| ==> Part(list[i].entries, all)
    ensures forall m :: 0 <= m < |all| ==> HeldBySome(list, all[m])
    ensures forall i, j, e :: 0 <= i < |list| && 0 <= j < |list| && e in list[i].entries && e in list[j].entries ==> i == j
  {
    hide Sorted;
    forall i, j | 0 <= i < |list| && 0 <= j < |list[i].entries|
      ensures list[i].entries[j] in all
    {
      assert list[i].entries[j] in runs[i];
      assert list[i].entries[j] in ToSet(all);
    }
    forall m | 0 <= m < |all|
      ensures HeldBySome(list, all[m])
    {
      assert all[m] in ToSet(all);
      var i :| 0 <= i < |runs| && all[m] in runs[i];
      assert all[m] in list[i].entries;
    }
  }

  method MakeInputIterator(c: Inputs) returns (iter: MergingIterator)
    requires InputsReadable(c)
    ensures iter.Ok() && fresh(iter) && forall k :: 0 <= k < |iter.children| ==> fresh(iter.children[k])
    ensures ToSet(iter.all) == LevelEntries(c.All())
  {
    RunsHold(c);
    RunsMergeable(c);
    var runs := Runs(c);
    hide InputsReadable, Flat, PerFile, Sorted, EntriesOf, LevelEntries;
    var list: seq<Cursor> := [];
    for i := 0 to |runs|
      invariant |list| == i && forall k :: 0 <= k < i ==> fresh(list[k]) && list[k].Ok() && list[k].entries == runs[k]
      invariant forall j, k :: 0 <= j < k < i ==> list[j] != list[k]
    {
      var child := new Cursor(runs[i]);
      list := list + [child];
    }
    ghost var all := SortedUnion(EntriesOf(runs));
    CursorsFit(runs, list, all);
    hide Mergeable, HeldBySome, Part;
    iter := new MergingIterator(list, all);
  }

  /** The iterator from its first entry to its end. */
  method ReadAll(iter: MergingIterator) returns (es: seq<Entry>)
    requires iter.Ok()
    modifies iter, iter.children
    ensures es == iter.all
  {
    es := [];
    iter.SeekToFirst();
    while iter.current.Some?
      invariant iter.StandsAt(|es|) && |es| <= |iter.all| && es == iter.all[..|es|]
      decreases |iter.all| - |es|
    {
      es := es + [iter.Current()];
      iter.Next();
    }
  }

  /** What DoCompactionWork reads: every input entry once, in order. */
  method ReadInputs(c: Inputs) returns (input: seq<Entry>)
    requires InputsReadable(c)
    ensures Sorted(input) && ToSet(input) == LevelEntries(c.All())
  {
    var iter := MakeInputIterator(c);
    input := ReadAll(iter);
  }
}
