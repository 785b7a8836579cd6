/** What the engine is for: a map with versions.  A read at snapshot `s` sees the newest
    write of the user key at or below `s`; a deletion reads as absent.  The same question
    asked of an unordered set of entries is `Read`; asked of the log of all writes it is
    `LastWrite`, the reference that every state of the engine is compared with. */
module MultiVersionMap {
  import opened Wrappers
  import opened DbFormat

  /** Entries of `u` that a reader at `s` may look at. */
  predicate Visible(e: Entry, u: UserKey, s: nat) {
    e.key.user == u && e.key.seqno <= s
  }

  ghost predicate IsNewest(db: set<Entry>, u: UserKey, s: nat, e: Entry) {
    && e in db
    && Visible(e, u, s)
    && forall f :: f in db && Visible(f, u, s) ==> f.key.seqno <= e.key.seqno
  }

  ghost predicate UniqueSeqnos(db: set<Entry>) {
    forall e, f :: e in db && f in db && e.key.seqno == f.key.seqno ==> e == f
  }

  function ValueOf(e: Entry): Option<Bytes> {
    if e.key.vtype == Value then Some(e.value) else None
  }

  /** The answer of an unordered set of entries to a read of `u` at snapshot `s`. */
  ghost function Read(db: set<Entry>, u: UserKey, s: nat): (r: Option<Bytes>)
    ensures r.Some? ==> exists e :: IsNewest(db, u, s, e) && e.key.vtype == Value && e.value == r.value
    ensures r.None? && (exists e :: e in db && Visible(e, u, s))
      ==> exists e :: IsNewest(db, u, s, e) && e.key.vtype == Deletion
  {
    if exists e :: e in db && Visible(e, u, s) then
      var e :| e in db && Visible(e, u, s);
      NewestExists(db, u, s, e);
      var n :| IsNewest(db, u, s, n);
      ValueOf(n)
    else
      None
  }

  lemma NewestExists(db: set<Entry>, u: UserKey, s: nat, e: Entry)
    requires e in db && Visible(e, u, s)
    ensures exists n :: IsNewest(db, u, s, n)
    decreases s - e.key.seqno
  {
    if !IsNewest(db, u, s, e) {
      var f :| f in db && Visible(f, u, s) && f.key.seqno > e.key.seqno;
      NewestExists(db, u, s, f);
    }
  }

  /** With distinct sequence numbers the newest entry is unique and decides the read. */
  lemma ReadIs(db: set<Entry>, u: UserKey, s: nat, e: Entry)
    requires UniqueSeqnos(db) && IsNewest(db, u, s, e)
    ensures Read(db, u, s) == ValueOf(e)
  {
  }

  lemma ReadAbsent(db: set<Entry>, u: UserKey, s: nat)
    requires forall e :: e in db ==> !Visible(e, u, s)
    ensures Read(db, u, s) == None
  {
  }

  /** The log of all writes since the database was created: write number i + 1 at index i. */
  ghost predicate IsHistory(h: seq<Entry>) {
    forall i :: 0 <= i < |h| ==> h[i].key.seqno == i + 1
  }

  /** The reference: scan the log backwards from the snapshot for the last write of `u`. */
  function LastWrite(h: seq<Entry>, u: UserKey, s: nat): Option<Bytes> {
    if h == [] then None
    else
      var e := h[|h| - 1];
      if Visible(e, u, s) then ValueOf(e) else LastWrite(h[..|h| - 1], u, s)
  }

  /** Two logs that agree up to the snapshot answer alike. */
  lemma {:induction false} LastWriteIgnoresLater(h: seq<Entry>, u: UserKey, s: nat)
    requires IsHistory(h)
    ensures s <= |h| ==> LastWrite(h, u, s) == LastWrite(h[..s], u, s)
    decreases |h|
  {
    if s < |h| {
      var g := h[..|h| - 1];
      LastWriteIgnoresLater(g, u, s);
      assert g[..s] == h[..s];
    } else if s == |h| {
      assert h[..s] == h;
    }
  }

  ghost function ToSet(es: seq<Entry>): set<Entry> {
    set e | e in es
  }

  lemma HistoryIsUnique(h: seq<Entry>)
    requires IsHistory(h)
    ensures UniqueSeqnos(ToSet(h))
  {
  }

  /** The set view and the log view of the history give the same answers. */
  lemma {:induction false} ReadHistory(h: seq<Entry>, u: UserKey, s: nat)
    requires IsHistory(h)
    ensures Read(ToSet(h), u, s) == LastWrite(h, u, s)
    decreases |h|
  {
    if h != [] {
      var e := h[|h| - 1];
      var g := h[..|h| - 1];
      assert forall f :: f in h <==> f in g || f == e;
      HistoryIsUnique(h);
      if Visible(e, u, s) {
        assert IsNewest(ToSet(h), u, s, e);
        ReadIs(ToSet(h), u, s, e);
      } else {
        ReadHistory(g, u, s);
        HistoryIsUnique(g);
        if n :| IsNewest(ToSet(g), u, s, n) {
          assert IsNewest(ToSet(h), u, s, n);
          ReadIs(ToSet(h), u, s, n);
          ReadIs(ToSet(g), u, s, n);
        } else {
          ReadAbsentIfNoNewest(ToSet(g), u, s);
        }
      }
    }
  }

  lemma ReadAbsentIfNoNewest(db: set<Entry>, u: UserKey, s: nat)
    requires forall n :: !IsNewest(db, u, s, n)
    ensures forall e :: e in db ==> !Visible(e, u, s)
  {
    if e :| e in db && Visible(e, u, s) {
      NewestExists(db, u, s, e);
    }
  }
}
