/** Steps that add data or move it between memtables keep the invariant. */
module EngineWrites {
  import opened DbFormat
  import opened MultiVersionMap
  import opened Tables
  import opened Versions
  import opened Engine

  lemma InitEstablishes(s: State)
    requires Init(s)
    ensures Inv(s)
  {
    EmptyVersion();
    assert Db(s) == {};
    forall u: UserKey, n: nat
      ensures Read(Db(s), u, n) == LastWrite(s.history, u, n)
    {
      ReadAbsent(Db(s), u, n);
    }
  }

  lemma EmptyVersion()
    ensures VersionOk(EMPTY_VERSION) && ReadOrder(EMPTY_VERSION) && VersionEntries(EMPTY_VERSION) == {}
    ensures NumbersBelow(EMPTY_VERSION, 2)
  {
    assert forall l :: 0 <= l < NUM_LEVELS ==> EMPTY_VERSION[l] == [];
  }

  lemma WritesAreUnique(db: set<Entry>, history: seq<Entry>, applied: nat)
    requires OnlyWrites(db, history, applied)
    ensures UniqueSeqnos(db)
  {
  }

  /** A reader does not notice entries it cannot see. */
  lemma ReadIgnoresInvisible(db: set<Entry>, e: Entry, u: UserKey, n: nat)
    requires UniqueSeqnos(db + {e}) && !Visible(e, u, n)
    ensures Read(db + {e}, u, n) == Read(db, u, n)
  {
    if m :| IsNewest(db, u, n, m) {
      assert IsNewest(db + {e}, u, n, m);
      ReadIs(db, u, n, m);
      ReadIs(db + {e}, u, n, m);
    } else {
      ReadAbsentIfNoNewest(db, u, n);
      ReadAbsent(db, u, n);
      ReadAbsent(db + {e}, u, n);
    }
  }

  /** Extending the log does not change what it says about earlier snapshots. */
  lemma LongerHistory(db: set<Entry>, h: seq<Entry>, more: seq<Entry>, oldest: nat, last: nat)
    requires IsHistory(h) && IsHistory(h + more) && last <= |h| && ReadsOk(db, h, oldest, last)
    ensures ReadsOk(db, h + more, oldest, last)
  {
    forall u: UserKey, n: nat | oldest <= n <= last
      ensures Read(db, u, n) == LastWrite(h + more, u, n)
    {
      LastWriteIgnoresLater(h + more, u, n);
      LastWriteIgnoresLater(h, u, n);
      assert (h + more)[..n] == h[..n];
    }
  }

  lemma HistoryGrows(h: seq<Entry>, ops: seq<Operation>)
    requires IsHistory(h)
    ensures IsHistory(h + Numbered(ops, |h| + 1))
  {
  }

  lemma WritesKept(db: set<Entry>, mem: set<Entry>, h: seq<Entry>, more: seq<Entry>, last: nat, applied: nat)
    requires OnlyWrites(db, h, applied) && PendingInMem(mem, h, last, applied)
    ensures OnlyWrites(db, h + more, applied) && PendingInMem(mem, h + more, last, applied)
  {
  }

  lemma BeginWriteKeeps(s: State, step: Step, t: State)
    requires Structure(s) && step.BeginWrite? && Next(s, step, t)
    ensures Structure(t)
    ensures ReadersServed(s) ==> ReadersServed(t)
  {
    hide VersionOk, SearchOrder, JobOk, JobReadsOk, NumbersBelow, SnapshotsOk, OnlyWrites, PendingInMem, ReadsOk,
      VersionEntries;
    var batch := Numbered(step.ops, s.lastSequence + 1);
    assert Db(t) == Db(s);
    HistoryGrows(s.history, step.ops);
    WritesKept(Db(s), ToSet(s.mem), s.history, batch, s.lastSequence, s.applied);
    if ReadersServed(s) {
      LongerHistory(Db(s), s.history, batch, OldestReader(s), s.lastSequence);
    }
  }

  lemma {:induction false} InsertKeepsSorted(es: seq<Entry>, e: Entry)
    requires Sorted(es) && forall x :: x in es ==> x.key.seqno != e.key.seqno
    ensures Sorted(InsertSorted(es, e))
  {
    if es != [] && !Less(e.key, es[0].key) {
      assert es[0] in es;
      InsertKeepsSorted(es[1..], e);
      var rest := InsertSorted(es[1..], e);
      forall i | 0 <= i < |rest|
        ensures Less(es[0].key, rest[i].key)
      {
        assert rest[i] in ToSet(rest);
      }
    }
  }

  lemma OneMoreInvisible(db: set<Entry>, e: Entry, h: seq<Entry>, oldest: nat, last: nat)
    requires UniqueSeqnos(db + {e}) && e.key.seqno > last && ReadsOk(db, h, oldest, last)
    ensures ReadsOk(db + {e}, h, oldest, last)
  {
    forall u: UserKey, n: nat | oldest <= n <= last
      ensures Read(db + {e}, u, n) == LastWrite(h, u, n)
    {
      ReadIgnoresInvisible(db, e, u, n);
    }
  }

  lemma NewMemOrder(mem: set<Entry>, imm: set<Entry>, v: Version, e: Entry, last: nat)
    requires SearchOrder(mem, imm, v) && AllVisible(imm + VersionEntries(v), last) && e.key.seqno > last
    ensures SearchOrder(mem + {e}, imm, v)
  {
  }

  lemma InsertOneKeeps(s: State, step: Step, t: State)
    requires Structure(s) && step.InsertOne? && Next(s, step, t)
    ensures Structure(t)
    ensures ReadersServed(s) ==> ReadersServed(t)
  {
    InsertOneStructure(s, step, t);
    hide VersionOk, SearchOrder, JobOk, JobReadsOk, NumbersBelow, SnapshotsOk, OnlyWrites, PendingInMem, ReadsOk,
      VersionEntries, AllVisible;
    var e := s.history[s.applied];
    assert Db(t) == Db(s) + {e} by {
      InsertKeepsSorted(s.mem, e);
    }
    if ReadersServed(s) {
      WritesAreUnique(Db(t), t.history, t.applied);
      OneMoreInvisible(Db(s), e, s.history, OldestReader(s), s.lastSequence);
    }
  }

  lemma InsertOneStructure(s: State, step: Step, t: State)
    requires Structure(s) && step.InsertOne? && Next(s, step, t)
    ensures Structure(t)
  {
    hide VersionOk, SearchOrder, JobOk, JobReadsOk, NumbersBelow, SnapshotsOk, OnlyWrites, PendingInMem, ReadsOk,
      VersionEntries, AllVisible;
    var e := s.history[s.applied];
    NoDuplicate(Db(s), s.mem, s.history, s.applied);
    InsertKeepsSorted(s.mem, e);
    assert Db(t) == Db(s) + {e};
    InsertedWrites(Db(s), ToSet(s.mem), s.history, s.lastSequence, s.applied);
    NewMemOrder(ToSet(s.mem), ImmEntries(s), s.version, e, s.lastSequence);
  }

  lemma NoDuplicate(db: set<Entry>, mem: seq<Entry>, h: seq<Entry>, applied: nat)
    requires IsHistory(h) && OnlyWrites(db, h, applied) && applied < |h| && ToSet(mem) <= db
    ensures forall x :: x in mem ==> x.key.seqno != h[applied].key.seqno
  {
    forall x | x in mem
      ensures x.key.seqno != h[applied].key.seqno
    {
      assert x in ToSet(mem);
    }
  }

  lemma InsertedWrites(db: set<Entry>, mem: set<Entry>, h: seq<Entry>, last: nat, applied: nat)
    requires IsHistory(h) && OnlyWrites(db, h, applied) && PendingInMem(mem, h, last, applied) && applied < |h|
    ensures OnlyWrites(db + {h[applied]}, h, applied + 1)
    ensures PendingInMem(mem + {h[applied]}, h, last, applied + 1)
  {
  }

  /** Making a batch visible: readers up to the new last sequence find it in the memtable. */
  lemma {:induction false} PublishedRead(db: set<Entry>, mem: set<Entry>, h: seq<Entry>, oldest: nat, last: nat,
                                         u: UserKey, n: nat)
    requires IsHistory(h) && OnlyWrites(db, h, |h|) && mem <= db && PendingInMem(mem, h, last, |h|)
    requires ReadsOk(db, h, oldest, last) && oldest <= last <= n <= |h|
    ensures Read(db, u, n) == LastWrite(h, u, n)
    decreases n
  {
    WritesAreUnique(db, h, |h|);
    if n > last {
      var e := h[n - 1];
      LastWriteIgnoresLater(h, u, n);
      assert h[..n][..n - 1] == h[..n - 1];
      if e.key.user == u {
        assert IsNewest(db, u, n, e);
        ReadIs(db, u, n, e);
      } else {
        PublishedRead(db, mem, h, oldest, last, u, n - 1);
        LastWriteIgnoresLater(h, u, n - 1);
        LastWriteBeyondEnd(h[..n - 1], u, n - 1, n);
        SameVisible(db, h, u, n);
      }
    }
  }

  lemma SameVisible(db: set<Entry>, h: seq<Entry>, u: UserKey, n: nat)
    requires OnlyWrites(db, h, |h|) && 0 < n <= |h| && h[n - 1].key.user != u
    ensures Read(db, u, n) == Read(db, u, n - 1)
  {
    WritesAreUnique(db, h, |h|);
    forall e | e in db
      ensures Visible(e, u, n) <==> Visible(e, u, n - 1)
    {
    }
    if m :| IsNewest(db, u, n, m) {
      assert IsNewest(db, u, n - 1, m);
      ReadIs(db, u, n, m);
      ReadIs(db, u, n - 1, m);
    } else {
      ReadAbsentIfNoNewest(db, u, n);
      ReadAbsent(db, u, n);
      ReadAbsent(db, u, n - 1);
    }
  }

  lemma {:induction false} LastWriteBeyondEnd(h: seq<Entry>, u: UserKey, m: nat, n: nat)
    requires IsHistory(h) && |h| <= m <= n
    ensures LastWrite(h, u, m) == LastWrite(h, u, n)
    decreases |h|
  {
    if h != [] {
      LastWriteBeyondEnd(h[..|h| - 1], u, m, n);
    }
  }

  lemma PublishKeeps(s: State, step: Step, t: State)
    requires Structure(s) && step.Publish? && Next(s, step, t)
    ensures Structure(t)
    ensures ReadersServed(s) ==> ReadersServed(t)
  {
    hide VersionOk, SearchOrder, JobOk, JobReadsOk, NumbersBelow, OnlyWrites, VersionEntries;
    assert Db(t) == Db(s);
    assert OldestReader(s) <= s.lastSequence;
    forall u: UserKey, n: nat | ReadersServed(s) && OldestReader(t) <= n <= t.lastSequence
      ensures Read(Db(t), u, n) == LastWrite(t.history, u, n)
    {
      if n >= s.lastSequence {
        PublishedRead(Db(s), ToSet(s.mem), s.history, OldestReader(s), s.lastSequence, u, n);
      }
    }
  }

  lemma SwitchKeeps(s: State, step: Step, t: State)
    requires Structure(s) && (step.SwitchMemTable? || step.FlushEmpty?) && Next(s, step, t)
    ensures Structure(t)
    ensures ReadersServed(s) ==> ReadersServed(t)
  {
    hide VersionOk, JobOk, JobReadsOk, SnapshotsOk, ReadsOk, VersionEntries, SearchOrder, OnlyWrites, PendingInMem,
      AllVisible;
    assert Db(t) == Db(s);
    assert ToSet(t.mem) + ImmEntries(t) == ToSet(s.mem) + ImmEntries(s);
    MemMoved(ToSet(s.mem), ImmEntries(s), ToSet(t.mem), ImmEntries(t), s.version);
    if step.SwitchMemTable? {
      NothingPending(ImmEntries(t) + VersionEntries(t.version), Db(s), s.history, s.applied);
    } else {
      assert ImmEntries(t) + VersionEntries(t.version) == ImmEntries(s) + VersionEntries(s.version);
    }
  }

  lemma MemMoved(mem: set<Entry>, imm: set<Entry>, mem2: set<Entry>, imm2: set<Entry>, v: Version)
    requires SearchOrder(mem, imm, v) && mem2 + imm2 == mem + imm && (mem2 == {} || imm2 == {})
    ensures SearchOrder(mem2, imm2, v)
  {
    hide ReadOrder, VersionEntries;
  }

  lemma NothingPending(stored: set<Entry>, db: set<Entry>, h: seq<Entry>, applied: nat)
    requires OnlyWrites(db, h, applied) && stored <= db
    ensures AllVisible(stored, applied) && PendingInMem({}, h, applied, applied)
  {
  }


  /** The list of snapshots stays sorted, and its oldest member never gets older. */
  lemma SnapshotListKeeps(snapshots: seq<nat>, last: nat, i: nat)
    requires SnapshotsOk(snapshots, last)
    ensures SnapshotsOk(snapshots + [last], last)
    ensures i < |snapshots| ==> SnapshotsOk(snapshots[..i] + snapshots[i + 1..], last)
  {
  }

  lemma SnapshotKeeps(s: State, step: Step, t: State)
    requires Structure(s) && (step.GetSnapshot? || step.ReleaseSnapshot?) && Next(s, step, t)
    ensures Structure(t)
    ensures ReadersServed(s) ==> ReadersServed(t)
    ensures OldestReader(s) <= OldestReader(t)
  {
    SnapshotListKeeps(s.snapshots, s.lastSequence, if step.ReleaseSnapshot? then step.index else 0);
    LaterReaders(s, t);
  }

  lemma LaterReaders(s: State, t: State)
    requires Structure(s) && t == s.(snapshots := t.snapshots)
    requires SnapshotsOk(t.snapshots, s.lastSequence)
    requires t.snapshots == [] || s.snapshots == [] || s.snapshots[0] <= t.snapshots[0]
    requires t.snapshots == [] || s.snapshots != [] || t.snapshots[0] == s.lastSequence
    ensures Structure(t)
    ensures ReadersServed(s) ==> ReadersServed(t)
    ensures OldestReader(s) <= OldestReader(t)
  {
    hide VersionOk, SearchOrder, JobOk, JobReadsOk, NumbersBelow, OnlyWrites, PendingInMem, VersionEntries;
    assert Db(t) == Db(s);
  }
}
