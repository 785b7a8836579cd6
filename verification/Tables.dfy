/** Sorted runs of entries: memtables and table files (db/memtable.cc, db/version_edit.h,
    and the contract of table/table.cc that `Table::InternalGet` meets). */
module Tables {
  import opened Wrappers
  import opened DbFormat
  import opened MultiVersionMap

  ghost predicate Sorted(es: seq<Entry>) {
    forall i, j :: 0 <= i < j < |es| ==> Less(es[i].key, es[j].key)
  }

  /** A table file with the metadata the manifest keeps for it. */
  datatype File = File(number: nat, size: nat, smallest: InternalKey, largest: InternalKey,
                       entries: seq<Entry>)

  ghost predicate ValidFile(f: File) {
    && Sorted(f.entries)
    && f.entries != []
    && f.smallest == f.entries[0].key
    && f.largest == f.entries[|f.entries| - 1].key
  }

  /** First position whose key is at or after `k`: what Seek of a memtable or table does. */
  function SeekIndex(es: seq<Entry>, k: InternalKey): (i: nat)
    ensures i <= |es|
    ensures forall j :: 0 <= j < i ==> Less(es[j].key, k)
    ensures i < |es| ==> LessEq(k, es[i].key)
  {
    if es == [] || LessEq(k, es[0].key) then 0 else 1 + SeekIndex(es[1..], k)
  }

  /** What a search of one run reports: the states of `Saver` in db/version_set.cc. */
  datatype Probe = NotFound | Found(value: Bytes) | Deleted

  function ProbeRun(es: seq<Entry>, u: UserKey, s: nat): Probe {
    var i := SeekIndex(es, LookupKey(u, s));
    if i < |es| && es[i].key.user == u then
      if es[i].key.vtype == Value then Found(es[i].value) else Deleted
    else
      NotFound
  }

  /** `p` is the right report for a set of entries. */
  ghost predicate Answers(db: set<Entry>, u: UserKey, s: nat, p: Probe) {
    match p
    case NotFound => forall e :: e in db ==> !Visible(e, u, s)
    case Found(v) => exists e :: IsNewest(db, u, s, e) && e.key.vtype == Value && e.value == v
    case Deleted => exists e :: IsNewest(db, u, s, e) && e.key.vtype == Deletion
  }

  function ProbeValue(p: Probe): Option<Bytes> {
    if p.Found? then Some(p.value) else None
  }

  lemma AnswersRead(db: set<Entry>, u: UserKey, s: nat, p: Probe)
    requires UniqueSeqnos(db) && Answers(db, u, s, p)
    ensures Read(db, u, s) == ProbeValue(p)
  {
    if n :| IsNewest(db, u, s, n) {
      ReadIs(db, u, s, n);
    } else {
      ReadAbsentIfNoNewest(db, u, s);
    }
  }

  /** Every entry of `a` is newer than every entry of `b` with the same user key. */
  ghost predicate Above(a: set<Entry>, b: set<Entry>) {
    forall x, y :: x in a && y in b && x.key.user == y.key.user ==> x.key.seqno > y.key.seqno
  }

  /** Searching newer data first and stopping at the first hit answers for the union. */
  lemma AnswersUnion(a: set<Entry>, b: set<Entry>, u: UserKey, s: nat, pa: Probe, pb: Probe)
    requires Above(a, b)
    requires Answers(a, u, s, pa)
    requires pa.NotFound? ==> Answers(b, u, s, pb)
    ensures Answers(a + b, u, s, if pa.NotFound? then pb else pa)
  {
    if pa.NotFound? {
      if n :| IsNewest(b, u, s, n) {
        assert IsNewest(a + b, u, s, n);
      }
      forall n | IsNewest(b, u, s, n) ensures IsNewest(a + b, u, s, n) {}
    } else {
      forall n | IsNewest(a, u, s, n) ensures IsNewest(a + b, u, s, n) {}
    }
  }

  /** Where the probe of a sorted run lands is the newest visible entry of the run. */
  lemma ProbeFindsNewest(es: seq<Entry>, u: UserKey, s: nat)
    requires Sorted(es)
    ensures Answers(ToSet(es), u, s, ProbeRun(es, u, s))
  {
    var i := SeekIndex(es, LookupKey(u, s));
    forall j | 0 <= j < i
      ensures !Visible(es[j], u, s)
    {
    }
    forall j | i <= j < |es|
      ensures Visible(es[j], u, s) ==> es[i].key.user == u && es[j].key.seqno <= es[i].key.seqno
    {
      if i < j {
        assert Less(es[i].key, es[j].key);
      }
    }
    if i < |es| && es[i].key.user == u {
      assert IsNewest(ToSet(es), u, s, es[i]);
    }
  }

  /** Entries of a sorted run lie between its first and last key. */
  lemma WithinBounds(f: File, e: Entry)
    requires ValidFile(f) && e in f.entries
    ensures LessEq(f.smallest, e.key) && LessEq(e.key, f.largest)
    ensures f.smallest.user <= e.key.user <= f.largest.user
  {
  }

  /** In a sorted run, equal user keys appear newest first. */
  lemma NewestFirstInRun(es: seq<Entry>, i: nat, j: nat)
    requires Sorted(es) && i < j < |es| && es[i].key.user == es[j].key.user
    ensures es[i].key.seqno >= es[j].key.seqno
  {
    assert Less(es[i].key, es[j].key);
  }
}
