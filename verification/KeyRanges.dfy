/** Which files of a level touch a range of user keys (db/version_set.cc). */
module KeyRanges {
  import opened Wrappers
  import opened DbFormat
  import opened Tables
  import opened Versions

  /** `lo <= x`, where no bound is a bound before all keys. */
  predicate AtOrAfter(lo: Option<UserKey>, x: UserKey) {
    lo.None? || lo.value <= x
  }

  predicate AtOrBefore(x: UserKey, hi: Option<UserKey>) {
    hi.None? || x <= hi.value
  }

  /** AfterFile and BeforeFile both false. */
  predicate Overlaps(f: File, lo: Option<UserKey>, hi: Option<UserKey>) {
    AtOrAfter(lo, f.largest.user) && AtOrBefore(f.smallest.user, hi)
  }

  predicate Within(f: File, lo: Option<UserKey>, hi: Option<UserKey>) {
    AtOrAfter(lo, f.smallest.user) && AtOrBefore(f.largest.user, hi)
  }

  predicate SomeOverlap(files: seq<File>, lo: Option<UserKey>, hi: Option<UserKey>) {
    exists f :: f in files && Overlaps(f, lo, hi)
  }

  /** The files that overlap the range, in level order. */
  function OverlapFilter(files: seq<File>, lo: Option<UserKey>, hi: Option<UserKey>): (r: seq<File>)
    ensures forall f :: f in r <==> f in files && Overlaps(f, lo, hi)
  {
    if files == [] then []
    else
      var g := files[|files| - 1];
      var r := OverlapFilter(files[..|files| - 1], lo, hi);
      if Overlaps(g, lo, hi) then r + [g] else r
  }

  lemma {:induction false} FilterKeepsOrder(files: seq<File>, lo: Option<UserKey>, hi: Option<UserKey>)
    ensures DistinctNumbers(files) ==> DistinctNumbers(OverlapFilter(files, lo, hi))
    ensures LevelSorted(files) ==> LevelSorted(OverlapFilter(files, lo, hi))
  {
    if files != [] {
      var init, g := files[..|files| - 1], files[|files| - 1];
      FilterKeepsOrder(init, lo, hi);
      var r := OverlapFilter(init, lo, hi);
      forall i | 0 <= i < |r|
        ensures DistinctNumbers(files) ==> r[i].number != g.number
        ensures LevelSorted(files) ==> Less(r[i].largest, g.smallest)
      {
        assert r[i] in init;
      }
    }
  }

  function TotalFileSize(files: seq<File>): nat {
    if files == [] then 0 else files[0].size + TotalFileSize(files[1..])
  }

  /** SomeFileOverlapsRange: linear over level 0, one binary search elsewhere. */
  method SomeFileOverlapsRange(disjointSorted: bool, files: seq<File>,
                               lo: Option<UserKey>, hi: Option<UserKey>) returns (r: bool)
    requires ValidFiles(files)
    requires disjointSorted ==> LevelSorted(files)
    requires forall f :: f in files ==> f.largest.seqno <= MAX_SEQUENCE
    ensures r <==> SomeOverlap(files, lo, hi)
  {
    if !disjointSorted {
      for i := 0 to |files|
        invariant forall j :: 0 <= j < i ==> !Overlaps(files[j], lo, hi)
      {
        if Overlaps(files[i], lo, hi) {
          return true;
        }
      }
      return false;
    }
    var index := 0;
    if lo.Some? {
      index := FindFile(files, LookupKey(lo.value, MAX_SEQUENCE));
    }
    assert forall j :: 0 <= j < index ==> !Overlaps(files[j], lo, hi);
    if index >= |files| {
      return false;
    }
    r := AtOrBefore(files[index].smallest.user, hi);
    if r {
      assert Overlaps(files[index], lo, hi);
    } else {
      forall j | index <= j < |files|
        ensures !Overlaps(files[j], lo, hi)
      {
        LargestAscends(files);
      }
    }
  }

  /** Every file that touches the range lies inside it. */
  ghost predicate OverlapClosed(files: seq<File>, lo: Option<UserKey>, hi: Option<UserKey>) {
    forall f :: f in files && Overlaps(f, lo, hi) ==> Within(f, lo, hi)
  }

  /** [lo2, hi2] includes [lo, hi]. */
  predicate Includes(lo2: Option<UserKey>, hi2: Option<UserKey>, lo: Option<UserKey>, hi: Option<UserKey>) {
    && (lo2.Some? ==> lo.Some? && lo2.value <= lo.value)
    && (hi2.Some? ==> hi.Some? && hi.value <= hi2.value)
  }

  ghost predicate LeastClosure(files: seq<File>, begin: Option<UserKey>, end: Option<UserKey>,
                               lo: Option<UserKey>, hi: Option<UserKey>) {
    && Includes(lo, hi, begin, end)
    && OverlapClosed(files, lo, hi)
    && forall lo2, hi2 :: Includes(lo2, hi2, begin, end) && OverlapClosed(files, lo2, hi2)
         ==> Includes(lo2, hi2, lo, hi)
  }

  /** No user key of [lo, hi] falls between the files. */
  ghost predicate Covered(files: seq<File>, lo: UserKey, hi: UserKey) {
    forall x: UserKey :: lo <= x <= hi ==> CoveredAt(files, x)
  }

  ghost predicate CoveredAt(files: seq<File>, x: UserKey) {
    exists f :: f in files && CoversUserKey(f, x)
  }

  /** Files that stick out of the range: the restarts of level 0 use them up. */
  ghost function StartingBefore(files: seq<File>, lo: Option<UserKey>): set<File> {
    set f | f in files && !AtOrAfter(lo, f.smallest.user)
  }

  ghost function EndingAfter(files: seq<File>, hi: Option<UserKey>): set<File> {
    set f | f in files && !AtOrBefore(f.largest.user, hi)
  }

  /** GetOverlappingInputs.  In level 0 the range grows whenever a chosen file sticks out
      of it, and the search restarts; `lo` and `hi` are the range it ends with.  Growing
      never jumps over a gap: a range covered by the level and `others` stays covered. */
  method GetOverlappingInputs(level: nat, files: seq<File>, begin: Option<UserKey>, end: Option<UserKey>,
                              ghost others: seq<File>)
    returns (inputs: seq<File>, lo: Option<UserKey>, hi: Option<UserKey>)
    ensures inputs == OverlapFilter(files, lo, hi)
    ensures level > 0 ==> lo == begin && hi == end
    ensures level == 0 ==> LeastClosure(files, begin, end, lo, hi)
    ensures Includes(lo, hi, begin, end)
    ensures lo.Some? <==> begin.Some?
    ensures hi.Some? <==> end.Some?
    ensures begin.Some? && end.Some? && Covered(others + files, begin.value, end.value) ==>
      Covered(others + files, lo.value, hi.value)
  {
    inputs, lo, hi := [], begin, end;
    var i := 0;
    while i < |files|
      invariant i <= |files|
      invariant inputs == OverlapFilter(files[..i], lo, hi)
      invariant level > 0 ==> lo == begin && hi == end
      invariant Includes(lo, hi, begin, end)
      invariant lo.Some? <==> begin.Some?
      invariant hi.Some? <==> end.Some?
      invariant level == 0 ==> OverlapClosed(files[..i], lo, hi)
      invariant level == 0 ==> forall lo2, hi2 ::
        Includes(lo2, hi2, begin, end) && OverlapClosed(files, lo2, hi2) ==> Includes(lo2, hi2, lo, hi)
      invariant begin.Some? && end.Some? && Covered(others + files, begin.value, end.value) ==>
        Covered(others + files, lo.value, hi.value)
      decreases StartingBefore(files, lo), EndingAfter(files, hi), |files| - i
    {
      var f := files[i];
      assert files[..i + 1][..i] == files[..i];
      i := i + 1;
      if Overlaps(f, lo, hi) {
        inputs := inputs + [f];
        if level == 0 {
          ghost var lo0, hi0 := lo, hi;
          if !AtOrAfter(lo, f.smallest.user) {
            assert f in StartingBefore(files, lo);
            lo := Some(f.smallest.user);
            assert f !in StartingBefore(files, lo);
            inputs := [];
            i := 0;
          } else if !AtOrBefore(f.largest.user, hi) {
            assert f in EndingAfter(files, hi);
            hi := Some(f.largest.user);
            assert f !in EndingAfter(files, hi);
            inputs := [];
            i := 0;
          }
          GrownRange(others + files, f, lo0, hi0, lo, hi);
        }
      }
    }
    assert files[..|files|] == files;
  }

  /** Growing the range to take in a file that touches it leaves no gap. */
  lemma GrownRange(files: seq<File>, f: File, lo0: Option<UserKey>, hi0: Option<UserKey>,
                   lo: Option<UserKey>, hi: Option<UserKey>)
    requires f in files && Overlaps(f, lo0, hi0)
    requires lo == lo0 || lo == Some(f.smallest.user)
    requires hi == hi0 || hi == Some(f.largest.user)
    ensures lo0.Some? && hi0.Some? && Covered(files, lo0.value, hi0.value) ==>
      Covered(files, lo.value, hi.value)
  {
    if lo0.Some? && hi0.Some? && Covered(files, lo0.value, hi0.value) {
      forall x: UserKey | lo.value <= x <= hi.value
        ensures CoveredAt(files, x)
      {
        if lo0.value <= x <= hi0.value {
          assert CoveredAt(files, x);
        } else {
          assert CoversUserKey(f, x);
        }
      }
    }
  }
}
