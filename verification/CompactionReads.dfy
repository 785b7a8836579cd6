/** What the drop rules do to reads.  The entries a compaction reads are one part of the
    database; everything else (memtables, other files) is the rest.  Nothing is assumed
    here about how either is stored. */
module CompactionReads {
  import opened Wrappers
  import opened DbFormat
  import opened MultiVersionMap
  import opened Tables
  import opened Versions
  import opened CompactionWork

  ghost function Dropped(input: seq<Entry>, smallest: nat, v: Version, level: nat): set<Entry> {
    set i | 0 <= i < |input| && Drops(input, i, smallest, v, level) :: input[i]
  }

  /** The kept entries are the others. */
  lemma {:induction false} KeptMembers(input: seq<Entry>, n: nat, smallest: nat, v: Version, level: nat, e: Entry)
    requires Sorted(input) && n <= |input|
    ensures e in Kept(input, n, smallest, v, level) <==>
      exists i :: 0 <= i < n && input[i] == e && !Drops(input, i, smallest, v, level)
    ensures e in Kept(input, |input|, smallest, v, level) && n == |input| ==>
      e in input && e !in Dropped(input, smallest, v, level)
  {
    if n > 0 {
      KeptMembers(input, n - 1, smallest, v, level, e);
    }
    if n == |input| && e in Kept(input, n, smallest, v, level) {
      var i :| 0 <= i < n && input[i] == e && !Drops(input, i, smallest, v, level);
      forall j | 0 <= j < n && input[j] == e
        ensures j == i
      {
        DistinctPositions(input, i, j);
      }
    }
  }

  lemma DistinctPositions(input: seq<Entry>, i: nat, j: nat)
    requires Sorted(input) && i < |input| && j < |input| && input[i] == input[j]
    ensures i == j
  {
  }

  lemma KeptIsRest(input: seq<Entry>, smallest: nat, v: Version, level: nat)
    requires Sorted(input)
    ensures ToSet(Kept(input, |input|, smallest, v, level)) == ToSet(input) - Dropped(input, smallest, v, level)
  {
    forall e
      ensures e in Kept(input, |input|, smallest, v, level) <==>
        e in input && e !in Dropped(input, smallest, v, level)
    {
      KeptMembers(input, |input|, smallest, v, level, e);
      if e in input && e !in Dropped(input, smallest, v, level) {
        var i :| 0 <= i < |input| && input[i] == e;
        assert !Drops(input, i, smallest, v, level);
      }
    }
  }

  /** Rule (A) in declarative form: hidden by any newer entry at or below the snapshot. */
  ghost predicate HiddenByNewer(input: seq<Entry>, e: Entry, smallest: nat) {
    exists f :: f in input && f.key.user == e.key.user && e.key.seqno < f.key.seqno <= smallest
  }

  ghost predicate ObsoleteMarker(e: Entry, smallest: nat, v: Version, level: nat) {
    e.key.vtype == Deletion && e.key.seqno <= smallest && IsBaseLevel(v, level, e.key.user)
  }

  /** The loop looks only at the previous entry; in a sorted run that is enough. */
  lemma DropRules(input: seq<Entry>, e: Entry, smallest: nat, v: Version, level: nat)
    requires Sorted(input) && UniqueSeqnos(ToSet(input)) && e in input && smallest < MAX_SEQUENCE
    ensures e in Dropped(input, smallest, v, level) <==>
      (HiddenByNewer(input, e, smallest) || ObsoleteMarker(e, smallest, v, level))
  {
    var i :| 0 <= i < |input| && input[i] == e;
    forall j | 0 <= j < |input| && input[j] == e
      ensures j == i
    {
      DistinctPositions(input, i, j);
    }
    assert e in Dropped(input, smallest, v, level) <==> Drops(input, i, smallest, v, level);
    if i > 0 && input[i - 1].key.user == e.key.user {
      PredecessorIsNext(input, i);
    }
    if HiddenByNewer(input, e, smallest) {
      var f :| f in input && f.key.user == e.key.user && e.key.seqno < f.key.seqno <= smallest;
      var j :| 0 <= j < |input| && input[j] == f;
      HiderReachesPredecessor(input, j, i);
    }
  }

  lemma PredecessorIsNext(input: seq<Entry>, i: nat)
    requires Sorted(input) && UniqueSeqnos(ToSet(input)) && 0 < i < |input|
    requires input[i - 1].key.user == input[i].key.user
    ensures input[i - 1].key.seqno > input[i].key.seqno && input[i - 1] in input
  {
    NewestFirstInRun(input, i - 1, i);
    assert input[i - 1] in ToSet(input) && input[i] in ToSet(input);
  }

  lemma HiderReachesPredecessor(input: seq<Entry>, j: nat, i: nat)
    requires Sorted(input) && i < |input| && j < |input|
    requires input[j].key.user == input[i].key.user && input[j].key.seqno > input[i].key.seqno
    ensures j < i && input[i - 1].key.user == input[i].key.user && input[i - 1].key.seqno <= input[j].key.seqno
  {
    if j > i {
      NewestFirstInRun(input, i, j);
    }
    assert j < i;
    assert Less(input[i - 1].key, input[i].key);
    if j < i - 1 {
      assert Less(input[j].key, input[i - 1].key);
    }
  }

  /** `d` is the newest entry of its user key that the compaction reads at or below the
      oldest snapshot: the one that decides what happens to all older ones. */
  ghost predicate IsDecisive(input: seq<Entry>, d: Entry, smallest: nat) {
    IsNewest(ToSet(input), d.key.user, smallest, d)
  }

  /** The one way a compaction can change an answer: it drops a deletion marker while the
      rest of the database still holds an older value under it, and nothing else hides that
      value from a reader at the oldest snapshot. */
  ghost predicate Resurrects(db: set<Entry>, input: seq<Entry>, smallest: nat, v: Version, level: nat, d: Entry, e: Entry) {
    && d in input && IsDecisive(input, d, smallest) && ObsoleteMarker(d, smallest, v, level)
    && e in db && e !in input && e.key.user == d.key.user && e.key.seqno < d.key.seqno && e.key.vtype == Value
    && forall f :: f in db && f !in input && f.key.user == d.key.user && f.key.seqno <= smallest ==>
         f.key.seqno <= e.key.seqno
  }

  ghost predicate ResurrectsNothing(db: set<Entry>, input: seq<Entry>, smallest: nat, v: Version, level: nat) {
    forall d, e :: !Resurrects(db, input, smallest, v, level, d, e)
  }

  /** Every reader at or above the oldest snapshot gets the same answer after the drops. */
  ghost predicate PreservesReads(db: set<Entry>, dropped: set<Entry>, smallest: nat) {
    SameAnswers(db, db - dropped, smallest)
  }

  ghost predicate SameAnswers(before: set<Entry>, after: set<Entry>, smallest: nat) {
    forall u: UserKey, s: nat :: smallest <= s ==> Read(after, u, s) == Read(before, u, s)
  }

  lemma UniqueSubset(db: set<Entry>, part: set<Entry>)
    requires UniqueSeqnos(db) && part <= db
    ensures UniqueSeqnos(part)
  {
  }

  /** Compaction preserves reads exactly when it resurrects nothing. */
  lemma CompactionPreservesReadsIff(db: set<Entry>, input: seq<Entry>, smallest: nat, v: Version, level: nat)
    requires Sorted(input) && UniqueSeqnos(db) && ToSet(input) <= db && smallest < MAX_SEQUENCE
    ensures PreservesReads(db, Dropped(input, smallest, v, level), smallest) <==>
      ResurrectsNothing(db, input, smallest, v, level)
  {
    var dropped := Dropped(input, smallest, v, level);
    if d, e :| Resurrects(db, input, smallest, v, level, d, e) {
      ResurrectionChangesRead(db, input, smallest, v, level, d, e);
    } else {
      forall u: UserKey, s: nat | smallest <= s
        ensures Read(db - dropped, u, s) == Read(db, u, s)
      {
        ReadUnchanged(db, input, smallest, v, level, u, s);
      }
    }
  }

  lemma ResurrectionChangesRead(db: set<Entry>, input: seq<Entry>, smallest: nat, v: Version, level: nat, d: Entry, e: Entry)
    requires Sorted(input) && UniqueSeqnos(db) && ToSet(input) <= db && smallest < MAX_SEQUENCE
    requires Resurrects(db, input, smallest, v, level, d, e)
    ensures Read(db, d.key.user, smallest) == None
    ensures Read(db - Dropped(input, smallest, v, level), d.key.user, smallest) == Some(e.value)
  {
    var u := d.key.user;
    var after := db - Dropped(input, smallest, v, level);
    UniqueSubset(db, ToSet(input));
    UniqueSubset(db, after);
    assert IsNewest(db, u, smallest, d) by {
      forall f | f in db && Visible(f, u, smallest)
        ensures f.key.seqno <= d.key.seqno
      {
        assert f in ToSet(input) || f !in input;
      }
    }
    ReadIs(db, u, smallest, d);
    assert IsNewest(after, u, smallest, e) by {
      forall f | f in after && Visible(f, u, smallest)
        ensures f.key.seqno <= e.key.seqno
      {
        if f in input {
          DroppedWithMarker(input, smallest, v, level, d, f);
        }
      }
    }
    ReadIs(after, u, smallest, e);
  }

  /** With a decisive obsolete marker go all older entries that the compaction reads. */
  lemma DroppedWithMarker(input: seq<Entry>, smallest: nat, v: Version, level: nat, d: Entry, f: Entry)
    requires Sorted(input) && UniqueSeqnos(ToSet(input)) && smallest < MAX_SEQUENCE
    requires d in input && IsDecisive(input, d, smallest) && ObsoleteMarker(d, smallest, v, level)
    requires f in input && f.key.user == d.key.user && f.key.seqno <= smallest
    ensures f in Dropped(input, smallest, v, level)
  {
    DropRules(input, f, smallest, v, level);
    assert f in ToSet(input) && d in ToSet(input);
    assert f == d || HiddenByNewer(input, f, smallest);
  }

  lemma ReadUnchanged(db: set<Entry>, input: seq<Entry>, smallest: nat, v: Version, level: nat, u: UserKey, s: nat)
    requires Sorted(input) && UniqueSeqnos(db) && ToSet(input) <= db && smallest < MAX_SEQUENCE
    requires ResurrectsNothing(db, input, smallest, v, level)
    requires smallest <= s
    ensures Read(db - Dropped(input, smallest, v, level), u, s) == Read(db, u, s)
  {
    var after := db - Dropped(input, smallest, v, level);
    UniqueSubset(db, ToSet(input));
    UniqueSubset(db, after);
    if n :| IsNewest(db, u, s, n) {
      ReadIs(db, u, s, n);
      if n in after {
        assert IsNewest(after, u, s, n);
        ReadIs(after, u, s, n);
      } else {
        assert n in input;
        DropRules(input, n, smallest, v, level);
        NewestIsNotHidden(db, input, u, s, n, smallest);
        MarkerGone(db, input, smallest, v, level, u, s, n);
      }
    } else {
      ReadAbsentIfNoNewest(db, u, s);
      ReadAbsent(db, u, s);
      ReadAbsent(after, u, s);
    }
  }

  lemma NewestIsNotHidden(db: set<Entry>, input: seq<Entry>, u: UserKey, s: nat, n: Entry, smallest: nat)
    requires ToSet(input) <= db && IsNewest(db, u, s, n) && smallest <= s
    ensures !HiddenByNewer(input, n, smallest)
  {
    forall f | f in input && f.key.user == n.key.user && f.key.seqno <= smallest
      ensures f.key.seqno <= n.key.seqno
    {
      assert f in ToSet(input);
    }
  }

  /** The newest entry was an obsolete marker: what is left under it is no value. */
  lemma MarkerGone(db: set<Entry>, input: seq<Entry>, smallest: nat, v: Version, level: nat, u: UserKey, s: nat, n: Entry)
    requires Sorted(input) && UniqueSeqnos(db) && ToSet(input) <= db && smallest < MAX_SEQUENCE && smallest <= s
    requires ResurrectsNothing(db, input, smallest, v, level)
    requires IsNewest(db, u, s, n) && n in input && ObsoleteMarker(n, smallest, v, level)
    ensures Read(db - Dropped(input, smallest, v, level), u, s) == None
  {
    var after := db - Dropped(input, smallest, v, level);
    UniqueSubset(db, ToSet(input));
    UniqueSubset(db, after);
    DropRules(input, n, smallest, v, level);
    if m :| IsNewest(after, u, s, m) {
      ReadIs(after, u, s, m);
      assert m.key.seqno < n.key.seqno;
      if m in input {
        DropRules(input, m, smallest, v, level);
        assert HiddenByNewer(input, m, smallest);
      }
      assert IsDecisive(input, n, smallest);
      assert !Resurrects(db, input, smallest, v, level, n, m);
    } else {
      ReadAbsentIfNoNewest(after, u, s);
      ReadAbsent(after, u, s);
    }
  }

  /** The usual case: no older data of a marked user key lies outside the inputs. */
  lemma NoOlderOutsideSuffices(db: set<Entry>, input: seq<Entry>, smallest: nat, v: Version, level: nat)
    requires Sorted(input) && UniqueSeqnos(db) && ToSet(input) <= db && smallest < MAX_SEQUENCE
    requires forall d, e ::
      d in input && e in db && e !in input && e.key.user == d.key.user && ObsoleteMarker(d, smallest, v, level)
      ==> e.key.seqno > d.key.seqno
    ensures PreservesReads(db, Dropped(input, smallest, v, level), smallest)
  {
    forall d, e
      ensures !Resurrects(db, input, smallest, v, level, d, e)
    {
    }
    CompactionPreservesReadsIff(db, input, smallest, v, level);
  }

  /** With the oldest snapshot at the largest sequence number the sentinel of the loop
      (`last_sequence_for_key = kMaxSequenceNumber`) no longer exceeds it, and every entry
      is dropped.  This is why the theorems above ask for a smaller one.  No run of the engine
      gets there: Engine.Structure keeps the history shorter than MAX_SEQUENCE. */
  lemma {:induction false} SentinelFailsAtMaximum(input: seq<Entry>, n: nat, v: Version, level: nat)
    requires n <= |input|
    requires forall i :: 0 <= i < |input| ==> input[i].key.seqno <= MAX_SEQUENCE
    ensures Kept(input, n, MAX_SEQUENCE, v, level) == []
  {
    if n > 0 {
      SentinelFailsAtMaximum(input, n - 1, v, level);
    }
  }
}
