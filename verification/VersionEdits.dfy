/** Version edits and the builder that folds them into a version
    (VersionSet::Builder in db/version_set.cc). */
module VersionEdits {
  import opened DbFormat
  import opened Tables
  import opened Versions

  /** Deleted (level, number) pairs, and new files with their level in the order added. */
  datatype VersionEdit = VersionEdit(deleted: set<(nat, nat)>, newFiles: seq<(nat, File)>)

  ghost predicate ValidEdit(e: VersionEdit) {
    && (forall d :: d in e.deleted ==> d.0 < NUM_LEVELS)
    && (forall i :: 0 <= i < |e.newFiles| ==> e.newFiles[i].0 < NUM_LEVELS)
  }

  /** BySmallestKey: smallest key first, ties broken by file number. */
  predicate BySmallest(f: File, g: File) {
    Less(f.smallest, g.smallest) || (f.smallest == g.smallest && f.number < g.number)
  }

  ghost predicate FilesSorted(files: seq<File>) {
    forall i, j :: 0 <= i < j < |files| ==> BySmallest(files[i], files[j])
  }

  /** A strictly sorted list is determined by its members. */
  lemma {:induction false} SortedListUnique(a: seq<File>, b: seq<File>)
    requires FilesSorted(a) && FilesSorted(b)
    requires forall f :: f in a <==> f in b
    ensures a == b
  {
    HeadIsMember(a);
    HeadIsMember(b);
    if a != [] && b != [] {
      var i :| 0 <= i < |a| && a[i] == b[0];
      var j :| 0 <= j < |b| && b[j] == a[0];
      assert i == 0 || j == 0;
      forall f
        ensures f in a[1..] <==> f in b[1..]
      {
        TailMembers(a, f);
        TailMembers(b, f);
      }
      SortedListUnique(a[1..], b[1..]);
      assert a == [a[0]] + a[1..] && b == [b[0]] + b[1..];
    }
  }

  lemma HeadIsMember(a: seq<File>)
    ensures a != [] ==> a[0] in a
  {
  }

  lemma TailMembers(a: seq<File>, f: File)
    requires FilesSorted(a) && a != []
    ensures f in a[1..] <==> f in a && f != a[0]
  {
    if f in a && f != a[0] {
      var i :| 0 <= i < |a| && a[i] == f;
      assert a[1..][i - 1] == f;
    }
    if f in a[1..] {
      var i :| 0 <= i < |a[1..]| && a[1..][i] == f;
      assert BySmallest(a[0], a[i + 1]);
    }
  }

  ghost predicate PairwiseDisjoint(files: seq<File>) {
    forall f, g :: f in files && g in files && f != g ==>
      Less(f.largest, g.smallest) || Less(g.largest, f.smallest)
  }

  /** Sorted by smallest key and pairwise disjoint: a legal level above 0. */
  lemma DisjointLevelSorted(files: seq<File>)
    requires ValidFiles(files) && FilesSorted(files) && PairwiseDisjoint(files)
    ensures LevelSorted(files)
  {
    forall i, j | 0 <= i < j < |files|
      ensures Less(files[i].largest, files[j].smallest)
    {
      assert BySmallest(files[i], files[j]);
      if files[i] != files[j] {
        WithinBounds(files[j], files[j].entries[0]);
        WithinBounds(files[i], files[i].entries[0]);
      }
    }
  }

  lemma LevelSortedDisjoint(files: seq<File>)
    requires LevelSorted(files)
    ensures PairwiseDisjoint(files)
  {
  }

  /** What one level of the builder holds: `LevelState`. */
  datatype LevelState = LevelState(deleted: set<nat>, added: seq<File>)

  /** std::set insertion: sorted, and a file equivalent to a present one is not added. */
  function InsertFile(added: seq<File>, f: File): (r: seq<File>)
    ensures FilesSorted(added) ==> FilesSorted(r)
    ensures forall g :: g in added ==> g in r
    ensures forall g :: g in r ==> g in added || g == f
    ensures (forall g :: g in added ==> g.number != f.number) ==> f in r
  {
    if added == [] || BySmallest(f, added[0]) then [f] + added
    else if BySmallest(added[0], f) then
      var rest := InsertFile(added[1..], f);
      assert FilesSorted(added) ==> forall g :: g in rest ==> BySmallest(added[0], g);
      [added[0]] + rest
    else added
  }

  /** The files the level will have once saved over `base`. */
  ghost predicate SavedMember(base: seq<File>, ls: LevelState, f: File) {
    (f in base || f in ls.added) && f.number !in ls.deleted
  }

  ghost predicate SavedLevel(base: seq<File>, ls: LevelState, saved: seq<File>) {
    && FilesSorted(saved)
    && forall f :: f in saved <==> SavedMember(base, ls, f)
  }

  ghost predicate DisjointNumbers(a: seq<File>, b: seq<File>) {
    forall f, g :: f in a && g in b ==> f.number != g.number
  }

  /** SaveTo for one level: merge base and added files in BySmallest order, dropping
      deleted ones. */
  method SaveLevel(base: seq<File>, ls: LevelState) returns (saved: seq<File>)
    requires FilesSorted(base) && FilesSorted(ls.added) && DisjointNumbers(base, ls.added)
    ensures SavedLevel(base, ls, saved)
  {
    saved := [];
    var bi := 0;
    var added := ls.added;
    for ai := 0 to |added|
      invariant bi <= |base|
      invariant Merged(base[..bi], added[..ai], ls.deleted, saved)
      invariant forall f, i :: f in saved && bi <= i < |base| ==> BySmallest(f, base[i])
      invariant forall f, i :: f in saved && ai <= i < |added| ==> BySmallest(f, added[i])
    {
      while bi < |base| && !BySmallest(added[ai], base[bi])
        invariant bi <= |base|
        invariant Merged(base[..bi], added[..ai], ls.deleted, saved)
        invariant forall f, i :: f in saved && bi <= i < |base| ==> BySmallest(f, base[i])
        invariant forall f, i :: f in saved && ai <= i < |added| ==> BySmallest(f, added[i])
      {
        assert base[bi] in base && added[ai] in added;
        assert BySmallest(base[bi], added[ai]);
        assert base[..bi + 1] == base[..bi] + [base[bi]];
        saved := MaybeAddFile(saved, base[bi], ls.deleted);
        bi := bi + 1;
      }
      assert added[..ai + 1] == added[..ai] + [added[ai]];
      assert forall i :: bi <= i < |base| ==> BySmallest(added[ai], base[i]);
      saved := MaybeAddFile(saved, added[ai], ls.deleted);
    }
    assert added[..|added|] == added;
    while bi < |base|
      invariant bi <= |base|
      invariant Merged(base[..bi], added, ls.deleted, saved)
      invariant forall f, i :: f in saved && bi <= i < |base| ==> BySmallest(f, base[i])
    {
      assert base[..bi + 1] == base[..bi] + [base[bi]];
      saved := MaybeAddFile(saved, base[bi], ls.deleted);
      bi := bi + 1;
    }
    assert base[..bi] == base;
  }

  ghost predicate Merged(base: seq<File>, added: seq<File>, deleted: set<nat>, saved: seq<File>) {
    SavedLevel(base, LevelState(deleted, added), saved)
  }

  method MaybeAddFile(files: seq<File>, f: File, deleted: set<nat>) returns (r: seq<File>)
    requires FilesSorted(files)
    requires forall g :: g in files ==> BySmallest(g, f)
    ensures FilesSorted(r)
    ensures forall g :: g in r <==> g in files || (g == f && f.number !in deleted)
  {
    if f.number in deleted {
      r := files;
    } else {
      r := files + [f];
    }
  }

  /** VersionSet::Builder: a base version plus, per level, what to delete and to add. */
  class Builder {
    const base: Version
    var deleted: seq<set<nat>>
    var added: seq<seq<File>>

    ghost predicate Valid()
      reads this
    {
      && |deleted| == |added| == NUM_LEVELS
      && forall l :: 0 <= l < NUM_LEVELS ==> FilesSorted(added[l]) && FilesSorted(base[l])
    }

    function Level(l: nat): LevelState
      requires |deleted| == |added| == NUM_LEVELS && l < NUM_LEVELS
      reads this
    {
      LevelState(deleted[l], added[l])
    }

    constructor (base: Version)
      requires forall l :: 0 <= l < NUM_LEVELS ==> FilesSorted(base[l])
      ensures Valid() && this.base == base
      ensures forall l :: 0 <= l < NUM_LEVELS ==> Level(l) == LevelState({}, [])
    {
      this.base := base;
      deleted := seq(NUM_LEVELS, _ => {});
      added := seq(NUM_LEVELS, _ => []);
    }

    /** Apply: deletions first, then new files, each of which cancels a deletion. */
    method Apply(e: VersionEdit)
      requires Valid() && ValidEdit(e)
      modifies this
      ensures Valid()
      ensures forall l :: 0 <= l < NUM_LEVELS ==> Level(l) == ApplyLevel(old(Level(l)), e, l)
    {
      deleted := seq(NUM_LEVELS, l requires 0 <= l < NUM_LEVELS && |deleted| == NUM_LEVELS reads this =>
        deleted[l] + DeletedAt(e, l));
      assert e.newFiles[..0] == [];
      for i := 0 to |e.newFiles|
        invariant Valid()
        invariant forall l :: 0 <= l < NUM_LEVELS ==>
          Level(l) == AddAll(LevelState(old(deleted[l]) + DeletedAt(e, l), old(added[l])), e.newFiles[..i], l)
      {
        var (level, f) := e.newFiles[i];
        assert e.newFiles[..i + 1] == e.newFiles[..i] + [e.newFiles[i]];
        deleted := deleted[level := deleted[level] - {f.number}];
        added := added[level := InsertFile(added[level], f)];
      }
      assert e.newFiles[..|e.newFiles|] == e.newFiles;
    }

    /** SaveTo: the new version, level by level. */
    method SaveTo() returns (v: Version)
      requires Valid()
      requires forall l :: 0 <= l < NUM_LEVELS ==> DisjointNumbers(base[l], added[l])
      ensures forall l :: 0 <= l < NUM_LEVELS ==> SavedLevel(base[l], Level(l), v[l])
    {
      var r: seq<seq<File>> := [];
      for l := 0 to NUM_LEVELS
        invariant |r| == l
        invariant forall m :: 0 <= m < l ==> SavedLevel(base[m], Level(m), r[m])
      {
        var s := SaveLevel(base[l], LevelState(deleted[l], added[l]));
        r := r + [s];
      }
      v := r;
    }
  }

  function DeletedAt(e: VersionEdit, l: nat): set<nat> {
    set d | d in e.deleted && d.0 == l :: d.1
  }

  function AddAll(ls: LevelState, newFiles: seq<(nat, File)>, l: nat): LevelState {
    if newFiles == [] then ls
    else
      var prev := AddAll(ls, newFiles[..|newFiles| - 1], l);
      var (level, f) := newFiles[|newFiles| - 1];
      if level == l then LevelState(prev.deleted - {f.number}, InsertFile(prev.added, f)) else prev
  }

  function ApplyLevel(ls: LevelState, e: VersionEdit, l: nat): LevelState {
    AddAll(LevelState(ls.deleted + DeletedAt(e, l), ls.added), e.newFiles, l)
  }

  /** New files of the edit at one level have distinct numbers. */
  ghost predicate DistinctNew(newFiles: seq<(nat, File)>, l: nat) {
    forall i, j :: 0 <= i < j < |newFiles| && newFiles[i].0 == l && newFiles[j].0 == l ==>
      newFiles[i].1.number != newFiles[j].1.number
  }

  /** No new file of the edit has the number of a file added before at the level. */
  ghost predicate NotYetAdded(added: seq<File>, newFiles: seq<(nat, File)>, l: nat) {
    forall f, g :: f in added && (l, g) in newFiles ==> f.number != g.number
  }

  lemma {:induction false} AddAllMembers(ls: LevelState, newFiles: seq<(nat, File)>, l: nat)
    requires DistinctNew(newFiles, l) && NotYetAdded(ls.added, newFiles, l) && FilesSorted(ls.added)
    ensures forall f :: f in AddAll(ls, newFiles, l).added <==> f in ls.added || (l, f) in newFiles
    ensures forall n :: n in AddAll(ls, newFiles, l).deleted <==>
      n in ls.deleted && forall f :: (l, f) in newFiles ==> f.number != n
    ensures FilesSorted(AddAll(ls, newFiles, l).added)
  {
    if newFiles != [] {
      var init := newFiles[..|newFiles| - 1];
      var (level, g) := newFiles[|newFiles| - 1];
      assert newFiles == init + [(level, g)];
      AddAllMembers(ls, init, l);
      var prev := AddAll(ls, init, l);
      if level == l {
        forall f | f in prev.added
          ensures f.number != g.number
        {
          assert f in ls.added || (l, f) in init;
        }
      }
    }
  }

  /** The files of a level after one edit: the base files it does not delete, and the files
      it adds. */
  lemma EditMembers(base: seq<File>, e: VersionEdit, l: nat, saved: seq<File>)
    requires DistinctNew(e.newFiles, l)
    requires forall f, g :: f in base && (l, g) in e.newFiles ==> f.number != g.number
    requires SavedLevel(base, ApplyLevel(LevelState({}, []), e, l), saved)
    ensures FilesSorted(saved)
    ensures forall f :: f in saved <==> (f in base && (l, f.number) !in e.deleted) || (l, f) in e.newFiles
  {
    var ls := LevelState({} + DeletedAt(e, l), []);
    AddAllMembers(ls, e.newFiles, l);
    forall f
      ensures f in saved <==> (f in base && (l, f.number) !in e.deleted) || (l, f) in e.newFiles
    {
      assert f.number in DeletedAt(e, l) <==> (l, f.number) in e.deleted;
    }
  }

  // ---------- replaying a manifest ----------

  /** Many edits folded into one builder. */
  function Replay(ls: LevelState, edits: seq<VersionEdit>, l: nat): LevelState {
    if edits == [] then ls
    else ApplyLevel(Replay(ls, edits[..|edits| - 1], l), edits[|edits| - 1], l)
  }

  /** The loop of VersionSet::Recover over the records of the manifest. */
  method Recover(edits: seq<VersionEdit>) returns (v: Version)
    requires forall i :: 0 <= i < |edits| ==> ValidEdit(edits[i])
    ensures forall l :: 0 <= l < NUM_LEVELS ==> SavedLevel([], Replay(LevelState({}, []), edits, l), v[l])
  {
    var empty: Version := [[], [], [], [], [], [], []];
    var builder := new Builder(empty);
    assert edits[..0] == [];
    for i := 0 to |edits|
      invariant builder.Valid() && fresh(builder) && builder.base == empty
      invariant forall l :: 0 <= l < NUM_LEVELS ==>
        builder.Level(l) == Replay(LevelState({}, []), edits[..i], l)
    {
      assert edits[..i + 1][..i] == edits[..i];
      builder.Apply(edits[i]);
    }
    assert edits[..|edits|] == edits;
    v := builder.SaveTo();
  }

  /** Folding one more edit into the builder gives what applying it to the saved level gives,
      provided that it adds no number that was added to the level before. */
  lemma ReplayStep(ls: LevelState, saved: seq<File>, e: VersionEdit, l: nat, saved2: seq<File>)
    requires SavedLevel([], ls, saved) && FilesSorted(ls.added)
    requires DistinctNew(e.newFiles, l) && NotYetAdded(ls.added, e.newFiles, l)
    requires SavedLevel(saved, ApplyLevel(LevelState({}, []), e, l), saved2)
    ensures SavedLevel([], ApplyLevel(ls, e, l), saved2)
    ensures FilesSorted(ApplyLevel(ls, e, l).added)
    ensures forall f :: f in ApplyLevel(ls, e, l).added <==> f in ls.added || (l, f) in e.newFiles
  {
    AddAllMembers(LevelState(ls.deleted + DeletedAt(e, l), ls.added), e.newFiles, l);
    EditMembers(saved, e, l, saved2);
    forall f
      ensures f in saved2 <==> SavedMember([], ApplyLevel(ls, e, l), f)
    {
      assert f.number in DeletedAt(e, l) <==> (l, f.number) in e.deleted;
    }
  }

  /** Why folding all edits into one builder needs numbers that are never used twice in a
      level: if a number comes back, an older file with it comes back as well.  No run of the
      engine logs such edits; Recovery.RunReplays proves that for every run. */
  lemma ReaddedNumberRevives(f: File, g: File) returns (edits: seq<VersionEdit>)
    requires f.number == g.number && BySmallest(f, g)
    ensures SavedMember([], Replay(LevelState({}, []), edits, 0), f)
    ensures edits == [VersionEdit({}, [(0, f)]), VersionEdit({(0, f.number)}, []), VersionEdit({}, [(0, g)])]
  {
    edits := [VersionEdit({}, [(0, f)]), VersionEdit({(0, f.number)}, []), VersionEdit({}, [(0, g)])];
    var none := LevelState({}, []);
    var first, second := ApplyLevel(none, edits[0], 0), ApplyLevel(ApplyLevel(none, edits[0], 0), edits[1], 0);
    AddAllMembers(LevelState({} + DeletedAt(edits[0], 0), []), edits[0].newFiles, 0);
    assert edits[0].newFiles[0] == (0, f) && f in second.added;
    assert edits[..2][..1] == [edits[0]] && [edits[0]][..0] == [] && edits[..2][1] == edits[1];
    assert Replay(none, [edits[0]], 0) == first && Replay(none, edits[..2], 0) == second;
    assert Replay(none, edits, 0) == ApplyLevel(second, edits[2], 0);
    AddsOne(LevelState(second.deleted + DeletedAt(edits[2], 0), second.added), g, 0);
  }

  lemma AddsOne(ls: LevelState, g: File, l: nat)
    ensures AddAll(ls, [(l, g)], l) == LevelState(ls.deleted - {g.number}, InsertFile(ls.added, g))
  {
    assert [(l, g)][..0] == [];
  }
}
