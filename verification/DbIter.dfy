/** Iteration over the live keys of the database at a snapshot (db/db_iter.cc). */
module DbIter {
  import opened Wrappers
  import opened DbFormat
  import opened MultiVersionMap
  import opened Tables
  import opened Cursors

  predicate Seen(es: seq<Entry>, s: nat, i: nat)
    requires i < |es|
  {
    es[i].key.seqno <= s
  }

  /** Entry `i` is what a reader at `s` finds for its user key, and it is a value. */
  ghost predicate Live(es: seq<Entry>, s: nat, i: nat)
    requires i < |es|
  {
    && Seen(es, s, i) && es[i].key.vtype == Value
    && forall j :: 0 <= j < i && es[j].key.user == es[i].key.user ==> !Seen(es, s, j)
  }

  // ---------- the map that the iterator walks ----------

  /** The live entries among the first `n`, in order. */
  ghost function LiveAmong(es: seq<Entry>, s: nat, n: nat): seq<Entry>
    requires n <= |es|
  {
    if n == 0 then []
    else if Live(es, s, n - 1) then LiveAmong(es, s, n - 1) + [es[n - 1]]
    else LiveAmong(es, s, n - 1)
  }

  ghost function View(es: seq<Entry>, s: nat): seq<Entry> {
    LiveAmong(es, s, |es|)
  }

  /** Position of live entry `i` in the view. */
  ghost function Rank(es: seq<Entry>, s: nat, i: nat): nat
    requires i <= |es|
  {
    |LiveAmong(es, s, i)|
  }

  lemma {:induction false} LiveAmongMembers(es: seq<Entry>, s: nat, n: nat)
    requires Sorted(es) && n <= |es|
    ensures forall e :: e in LiveAmong(es, s, n) <==> exists i :: 0 <= i < n && Live(es, s, i) && es[i] == e
  {
    if n > 0 {
      LiveAmongMembers(es, s, n - 1);
    }
  }

  lemma {:induction false} LiveAmongGrows(es: seq<Entry>, s: nat, m: nat, n: nat)
    requires m <= n <= |es|
    ensures LiveAmong(es, s, m) <= LiveAmong(es, s, n)
  {
    if m < n {
      LiveAmongGrows(es, s, m, n - 1);
    }
  }

  lemma RankIsPosition(es: seq<Entry>, s: nat, i: nat)
    requires i < |es| && Live(es, s, i)
    ensures Rank(es, s, i) < |View(es, s)| && View(es, s)[Rank(es, s, i)] == es[i]
  {
    LiveAmongGrows(es, s, i + 1, |es|);
  }

  /** No live entry in [m, n). */
  ghost predicate NoneLive(es: seq<Entry>, s: nat, m: nat, n: nat)
    requires n <= |es|
  {
    forall i :: m <= i < n ==> !Live(es, s, i)
  }

  lemma {:induction false} RankAcrossGap(es: seq<Entry>, s: nat, m: nat, n: nat)
    requires m <= n <= |es| && NoneLive(es, s, m, n)
    ensures LiveAmong(es, s, m) == LiveAmong(es, s, n)
  {
    if m < n {
      RankAcrossGap(es, s, m, n - 1);
    }
  }

  /** User keys ascend strictly in the view. */
  ghost predicate Ascending(v: seq<Entry>) {
    forall i, j :: 0 <= i < j < |v| ==> v[i].key.user < v[j].key.user
  }

  lemma {:induction false} LiveAmongAscends(es: seq<Entry>, s: nat, n: nat)
    requires Sorted(es) && n <= |es|
    ensures Ascending(LiveAmong(es, s, n))
  {
    if n > 0 {
      LiveAmongAscends(es, s, n - 1);
      LiveAmongMembers(es, s, n - 1);
      var v := LiveAmong(es, s, n - 1);
      if Live(es, s, n - 1) {
        forall i | 0 <= i < |v|
          ensures v[i].key.user < es[n - 1].key.user
        {
          assert v[i] in v;
          var j :| 0 <= j < n - 1 && Live(es, s, j) && es[j] == v[i];
          assert Less(es[j].key, es[n - 1].key);
        }
      }
    }
  }

  /** The view is the map that readers see: in key order, each key that has a value at the
      snapshot, with that value, and no other key. */
  lemma ViewIsTheMap(es: seq<Entry>, s: nat)
    requires Sorted(es) && UniqueSeqnos(ToSet(es))
    ensures Ascending(View(es, s))
    ensures forall u: UserKey, v: Bytes ::
      Read(ToSet(es), u, s) == Some(v) <==> exists e :: e in View(es, s) && e.key.user == u && e.value == v
  {
    LiveAmongAscends(es, s, |es|);
    LiveAmongMembers(es, s, |es|);
    forall u: UserKey, v: Bytes
      ensures Read(ToSet(es), u, s) == Some(v) <==> exists e :: e in View(es, s) && e.key.user == u && e.value == v
    {
      if Read(ToSet(es), u, s) == Some(v) {
        var n :| IsNewest(ToSet(es), u, s, n) && n.key.vtype == Value && n.value == v;
        NewestIsLive(es, s, u, n);
        assert n in View(es, s);
      }
      if e :| e in View(es, s) && e.key.user == u && e.value == v {
        var i :| 0 <= i < |es| && Live(es, s, i) && es[i] == e;
        LiveIsNewest(es, s, i);
        ReadIs(ToSet(es), u, s, e);
      }
    }
  }

  lemma LiveIsNewest(es: seq<Entry>, s: nat, i: nat)
    requires Sorted(es) && i < |es| && Live(es, s, i)
    ensures IsNewest(ToSet(es), es[i].key.user, s, es[i])
  {
    forall f | f in ToSet(es) && Visible(f, es[i].key.user, s)
      ensures f.key.seqno <= es[i].key.seqno
    {
      var j :| 0 <= j < |es| && es[j] == f;
      assert j >= i;
      if j > i {
        NewestFirstInRun(es, i, j);
      }
    }
  }

  lemma NewerIsLater(db: set<Entry>, u: UserKey, s: nat, n: Entry, e: Entry)
    requires IsNewest(db, u, s, n) && e in db && e.key.user == u && e.key.seqno > n.key.seqno
    ensures e.key.seqno > s
  {
  }

  lemma NewestIsLive(es: seq<Entry>, s: nat, u: UserKey, n: Entry)
    requires Sorted(es) && UniqueSeqnos(ToSet(es)) && IsNewest(ToSet(es), u, s, n) && n.key.vtype == Value
    ensures exists i :: 0 <= i < |es| && Live(es, s, i) && es[i] == n
  {
    var i :| 0 <= i < |es| && es[i] == n;
    forall j | 0 <= j < i && es[j].key.user == u
      ensures !Seen(es, s, j)
    {
      NewestFirstInRun(es, j, i);
      assert es[j] in ToSet(es) && es[i] in ToSet(es);
      assert Less(es[j].key, es[i].key);
      assert es[j].key.seqno != n.key.seqno;
      NewerIsLater(ToSet(es), u, s, n, es[j]);
    }
    assert Live(es, s, i);
  }

  datatype Direction = Forward | Reverse

  /** `i` is the first live entry at or after `lo`, if there is one. */
  ghost predicate FirstLive(es: seq<Entry>, s: nat, lo: nat, i: nat) {
    && lo <= i < |es| && Live(es, s, i)
    && NoneLive(es, s, lo, i)
  }

  ghost predicate LastLive(es: seq<Entry>, s: nat, hi: nat, i: nat)
    requires hi <= |es|
  {
    && i < hi && Live(es, s, i)
    && NoneLive(es, s, i + 1, hi)
  }

  /** What the forward scan may rely on at position `p`: it hides exactly the user keys up to
      `skip`, which have no live entry from `lo` on; all later keys are still untouched. */
  ghost predicate ScanOk(es: seq<Entry>, s: nat, lo: nat, p: nat, skipping: bool, skip: UserKey) {
    forall j :: p <= j < |es| && Seen(es, s, j) ==>
      if skipping && es[j].key.user <= skip then SkipOk(es, s, lo, j, skip) else FreshOk(es, s, lo, p, j)
  }

  ghost predicate SkipOk(es: seq<Entry>, s: nat, lo: nat, j: nat, skip: UserKey)
    requires j < |es|
  {
    es[j].key.user == skip && (j < lo || !Live(es, s, j))
  }

  ghost predicate FreshOk(es: seq<Entry>, s: nat, lo: nat, p: nat, j: nat)
    requires j < |es|
  {
    lo <= j && forall i :: 0 <= i < p && i < |es| && es[i].key.user == es[j].key.user ==> !Seen(es, s, i)
  }

  /** One step over an entry that is not to be yielded. */
  lemma ScanStep(es: seq<Entry>, s: nat, lo: nat, p: nat, skipping: bool, skip: UserKey)
    requires Sorted(es) && p < |es| && ScanOk(es, s, lo, p, skipping, skip)
    ensures !Seen(es, s, p) ==> ScanOk(es, s, lo, p + 1, skipping, skip)
    ensures Seen(es, s, p) && skipping && es[p].key.user <= skip ==> ScanOk(es, s, lo, p + 1, skipping, skip)
    ensures Seen(es, s, p) && es[p].key.vtype == Deletion ==> ScanOk(es, s, lo, p + 1, true, es[p].key.user)
    ensures Live(es, s, p) && lo <= p ==> Seen(es, s, p) && es[p].key.vtype == Value && !(skipping && es[p].key.user <= skip)
    ensures Seen(es, s, p) && es[p].key.vtype == Value && !(skipping && es[p].key.user <= skip) ==> Live(es, s, p) && lo <= p
  {
    forall j | p < j < |es|
      ensures es[p].key.user <= es[j].key.user
    {
      assert Less(es[p].key, es[j].key);
    }
  }

  class DBIter {
    const iter: Cursor
    const sequence: nat
    var direction: Direction
    var valid: bool
    var savedKey: UserKey
    var savedValue: Bytes
    /** The entry the iterator stands for. */
    ghost var at: nat

    /** In reverse the cursor has passed all entries of the current user key, and what it
        has passed of smaller keys no reader at this sequence can see. */
    ghost predicate Behind()
      requires at < |iter.entries|
      reads this, iter
    {
      var es := iter.entries;
      && savedKey == es[at].key.user && savedValue == es[at].value
      && (iter.pos < |es| ==> es[iter.pos].key.user < savedKey)
      && forall j :: 0 <= j < |es| && (iter.pos < |es| ==> iter.pos < j) && es[j].key.user < savedKey ==>
           !Seen(es, sequence, j)
    }

    ghost predicate Ok()
      reads this, iter
    {
      && iter.Ok()
      && (valid ==>
        && at < |iter.entries| && Live(iter.entries, sequence, at)
        && if direction == Forward then iter.pos == at else Behind())
    }

    /** Position in the view. */
    ghost function Position(): nat
      requires Ok() && valid
      reads this, iter
    {
      Rank(iter.entries, sequence, at)
    }

    function Key(): (u: UserKey)
      requires Ok() && valid
      reads this, iter
      ensures u == iter.entries[at].key.user
    {
      if direction == Forward then iter.Current().key.user else savedKey
    }

    function Val(): (v: Bytes)
      requires Ok() && valid
      reads this, iter
      ensures v == iter.entries[at].value
    {
      if direction == Forward then iter.Current().value else savedValue
    }

    constructor (iter: Cursor, sequence: nat)
      requires iter.Ok()
      ensures Ok() && !valid && this.iter == iter && this.sequence == sequence
    {
      this.iter, this.sequence := iter, sequence;
      direction, valid, savedKey, savedValue, at := Forward, false, 0.0, [], 0;
    }

    /** FindNextUserEntry. */
    method FindNextUserEntry(skipping0: bool, skip0: UserKey, ghost lo: nat)
      requires iter.Ok() && iter.AtEntry() && direction == Forward
      requires ScanOk(iter.entries, sequence, lo, iter.pos, skipping0, skip0)
      requires NoneLive(iter.entries, sequence, lo, iter.pos)
      modifies this, iter
      ensures Ok() && direction == Forward
      ensures valid ==> FirstLive(iter.entries, sequence, lo, at)
      ensures !valid ==> NoneLive(iter.entries, sequence, lo, |iter.entries|)
    {
      var skipping, skip := skipping0, skip0;
      while iter.AtEntry()
        invariant iter.Ok() && direction == Forward
        invariant ScanOk(iter.entries, sequence, lo, iter.pos, skipping, skip)
        invariant NoneLive(iter.entries, sequence, lo, iter.pos)
        decreases |iter.entries| - iter.pos
      {
        ScanStep(iter.entries, sequence, lo, iter.pos, skipping, skip);
        var key := iter.Current().key;
        if key.seqno <= sequence {
          if key.vtype == Deletion {
            skip := key.user;
            skipping := true;
          } else if skipping && key.user <= skip {
          } else {
            valid := true;
            at := iter.pos;
            return;
          }
        }
        iter.Next();
      }
      valid := false;
    }

    /** FindPrevUserEntry: run back until a smaller visible key shows that the value at hand
        is the newest one of its key. */
    method FindPrevUserEntry(ghost hi: nat)
      requires iter.Ok() && direction == Reverse && hi <= |iter.entries|
      requires iter.AtEntry() ==> iter.pos < hi && NoneLive(iter.entries, sequence, iter.pos + 1, hi)
      requires !iter.AtEntry() ==> NoneLive(iter.entries, sequence, 0, hi)
      modifies this, iter
      ensures Ok()
      ensures valid ==> direction == Reverse && LastLive(iter.entries, sequence, hi, at)
      ensures !valid ==> NoneLive(iter.entries, sequence, 0, hi)
    {
      ghost var es := iter.entries;
      var valueType := Deletion;
      while iter.AtEntry()
        invariant iter.Ok() && direction == Reverse
        invariant iter.AtEntry() ==> iter.pos < hi
        invariant ScannedBack(es, sequence, if iter.AtEntry() then iter.pos + 1 else 0, hi, valueType, savedKey,
          savedValue, at)
        decreases if iter.AtEntry() then iter.pos + 1 else 0
      {
        var e := iter.Current();
        BackStep(es, sequence, iter.pos, hi, valueType, savedKey, savedValue, at);
        if e.key.seqno <= sequence {
          if valueType != Deletion && e.key.user < savedKey {
            break;
          }
          valueType := e.key.vtype;
          if valueType == Deletion {
            savedKey, savedValue := 0.0, [];
          } else {
            savedKey, savedValue, at := e.key.user, e.value, iter.pos;
          }
        }
        iter.Prev();
      }
      if valueType == Deletion {
        valid := false;
        direction := Forward;
      } else {
        valid := true;
      }
    }

    /** The iterator stands at entry `k` of the view, or is not valid if there is none. */
    ghost predicate StandsAt(k: int)
      reads this, iter
    {
      var v := View(iter.entries, sequence);
      && Ok()
      && (valid <==> 0 <= k < |v|)
      && (valid ==> Position() == k && Key() == v[k].key.user && Val() == v[k].value)
    }

    method SeekToFirst()
      requires Ok()
      modifies this, iter
      ensures StandsAt(0)
    {
      direction := Forward;
      savedValue := [];
      iter.SeekToFirst();
      if iter.AtEntry() {
        FindNextUserEntry(false, savedKey, 0);
      } else {
        valid := false;
      }
      ArrivedForward(0);
    }

    /** Seek: the first key of the view at or after the target. */
    method Seek(target: UserKey) returns (ghost k: nat)
      requires Ok()
      modifies this, iter
      ensures StandsAt(k) && k <= |View(iter.entries, sequence)|
      ensures forall i :: 0 <= i < k ==> View(iter.entries, sequence)[i].key.user < target
      ensures forall i :: k <= i < |View(iter.entries, sequence)| ==> target <= View(iter.entries, sequence)[i].key.user
    {
      ghost var lo := SeekIndex(iter.entries, LookupKey(target, sequence));
      k := Rank(iter.entries, sequence, lo);
      SeekSplitsView(iter.entries, sequence, target);
      direction := Forward;
      savedValue := [];
      iter.Seek(LookupKey(target, sequence));
      if iter.AtEntry() {
        SeekScanOk(iter.entries, sequence, target);
        FindNextUserEntry(false, savedKey, lo);
      } else {
        valid := false;
      }
      ArrivedForward(lo);
    }

    method SeekToLast()
      requires Ok()
      modifies this, iter
      ensures StandsAt(|View(iter.entries, sequence)| - 1)
    {
      direction := Reverse;
      savedValue := [];
      iter.SeekToLast();
      FindPrevUserEntry(|iter.entries|);
      ArrivedBackward(|iter.entries|);
    }

    method Next()
      requires Ok() && valid
      modifies this, iter
      ensures StandsAt(old(Position()) + 1)
    {
      ghost var here := at;
      assert Rank(iter.entries, sequence, here + 1) == Rank(iter.entries, sequence, here) + 1;
      if direction == Reverse {
        direction := Forward;
        if !iter.AtEntry() {
          iter.SeekToFirst();
        } else {
          iter.Next();
        }
        // The end of the data cannot be reached here: the current key is still ahead.
        if !iter.AtEntry() {
          assert false;
        }
      } else {
        savedKey := iter.Current().key.user;
      }
      NextScanOk(iter.entries, sequence, here, iter.pos, savedKey);
      FindNextUserEntry(true, savedKey, here + 1);
      ArrivedForward(here + 1);
    }

    method Prev()
      requires Ok() && valid
      modifies this, iter
      ensures StandsAt(old(Position()) - 1)
    {
      ghost var here := at;
      if direction == Forward {
        savedKey := iter.Current().key.user;
        while true
          invariant iter.Ok() && iter.AtEntry() && iter.pos <= here && direction == Forward
          invariant savedKey == iter.entries[here].key.user
          invariant forall j :: iter.pos <= j < here ==> iter.entries[j].key.user == savedKey
          decreases iter.pos
        {
          iter.Prev();
          if !iter.AtEntry() {
            valid := false;
            savedKey, savedValue := 0.0, [];
            ArrivedBackward(here);
            return;
          }
          if iter.Current().key.user < savedKey {
            break;
          }
          assert Less(iter.Current().key, iter.entries[here].key);
        }
        direction := Reverse;
      }
      FindPrevUserEntry(here);
      ArrivedBackward(here);
    }

    lemma ArrivedForward(lo: nat)
      requires Ok() && lo <= |iter.entries|
      requires valid ==> FirstLive(iter.entries, sequence, lo, at)
      requires !valid ==> NoneLive(iter.entries, sequence, lo, |iter.entries|)
      ensures StandsAt(Rank(iter.entries, sequence, lo))
    {
      if valid {
        RankAcrossGap(iter.entries, sequence, lo, at);
        RankIsPosition(iter.entries, sequence, at);
      } else {
        RankAcrossGap(iter.entries, sequence, lo, |iter.entries|);
      }
    }

    lemma ArrivedBackward(hi: nat)
      requires Ok() && hi <= |iter.entries|
      requires valid ==> LastLive(iter.entries, sequence, hi, at)
      requires !valid ==> NoneLive(iter.entries, sequence, 0, hi)
      ensures StandsAt(Rank(iter.entries, sequence, hi) - 1)
    {
      if valid {
        RankAcrossGap(iter.entries, sequence, at + 1, hi);
        RankIsPosition(iter.entries, sequence, at);
      } else {
        RankAcrossGap(iter.entries, sequence, 0, hi);
      }
    }
  }

  /** What the backward scan knows after it has seen the entries [b, hi): at most one of
      them can be live, the one saved, and everything seen below that one was invisible. */
  ghost predicate ScannedBack(es: seq<Entry>, s: nat, b: nat, hi: nat, valueType: ValueType,
                              savedKey: UserKey, savedValue: Bytes, q: nat)
    requires hi <= |es|
  {
    && (forall j :: b <= j < hi && Live(es, s, j) ==> valueType == Value && j == q)
    && (valueType == Value ==>
      && b <= q < hi && Seen(es, s, q) && es[q].key.vtype == Value
      && savedKey == es[q].key.user && savedValue == es[q].value
      && forall j :: b <= j < q ==> !Seen(es, s, j))
  }

  lemma BackStep(es: seq<Entry>, s: nat, p: nat, hi: nat, valueType: ValueType, savedKey: UserKey, savedValue: Bytes, q: nat)
    requires Sorted(es) && p < hi <= |es| && ScannedBack(es, s, p + 1, hi, valueType, savedKey, savedValue, q)
    ensures !Seen(es, s, p) ==> ScannedBack(es, s, p, hi, valueType, savedKey, savedValue, q)
    ensures Seen(es, s, p) && valueType == Value && es[p].key.user < savedKey ==> LastLive(es, s, hi, q)
    ensures Seen(es, s, p) && !(valueType == Value && es[p].key.user < savedKey) ==>
      ScannedBack(es, s, p, hi, es[p].key.vtype, es[p].key.user, es[p].value, p)
  {
    forall i, j | 0 <= i < j < |es|
      ensures es[i].key.user <= es[j].key.user
    {
      assert Less(es[i].key, es[j].key);
    }
  }

  lemma SeekScanOk(es: seq<Entry>, s: nat, target: UserKey)
    requires Sorted(es)
    ensures var lo := SeekIndex(es, LookupKey(target, s)); ScanOk(es, s, lo, lo, false, 0.0)
  {
    var lo := SeekIndex(es, LookupKey(target, s));
    forall i, j | 0 <= i < lo <= j < |es| && es[i].key.user == es[j].key.user
      ensures !Seen(es, s, i)
    {
      assert lo == j || Less(es[lo].key, es[j].key);
      LookupKeySplits(es[i].key, target, s);
    }
  }

  lemma SeekSplitsView(es: seq<Entry>, s: nat, target: UserKey)
    requires Sorted(es)
    ensures var k := Rank(es, s, SeekIndex(es, LookupKey(target, s)));
      && k <= |View(es, s)|
      && (forall i :: 0 <= i < k ==> View(es, s)[i].key.user < target)
      && (forall i :: k <= i < |View(es, s)| ==> target <= View(es, s)[i].key.user)
  {
    var lo := SeekIndex(es, LookupKey(target, s));
    var k := Rank(es, s, lo);
    var v := View(es, s);
    LiveAmongGrows(es, s, lo, |es|);
    LiveAmongMembers(es, s, lo);
    LiveAmongMembers(es, s, |es|);
    LiveAmongAscends(es, s, |es|);
    forall i | 0 <= i < k
      ensures v[i].key.user < target
    {
      assert v[i] == LiveAmong(es, s, lo)[i];
      assert v[i] in LiveAmong(es, s, lo);
      var j :| 0 <= j < lo && Live(es, s, j) && es[j] == v[i];
      assert Less(es[j].key, LookupKey(target, s));
    }
    if k < |v| {
      assert v[k] in v;
      var j :| 0 <= j < |es| && Live(es, s, j) && es[j] == v[k];
      if j < lo {
        RankBelow(es, s, j, lo);
      }
      assert lo == j || Less(es[lo].key, es[j].key);
    }
  }

  lemma RankBelow(es: seq<Entry>, s: nat, j: nat, lo: nat)
    requires Sorted(es) && j < lo <= |es| && Live(es, s, j)
    requires Rank(es, s, lo) < |View(es, s)|
    ensures View(es, s)[Rank(es, s, lo)] != es[j]
  {
    LiveAmongGrows(es, s, j + 1, lo);
    LiveAmongGrows(es, s, lo, |es|);
    RankIsPosition(es, s, j);
    LiveAmongAscends(es, s, |es|);
  }

  /** From the current entry, or from just after the smaller keys, all that is left of the
      current key is hidden by the current key itself. */
  lemma NextScanOk(es: seq<Entry>, s: nat, here: nat, p: nat, skip: UserKey)
    requires Sorted(es) && here < |es| && Live(es, s, here) && skip == es[here].key.user && p <= here
    requires forall j :: p <= j < here && es[j].key.user < skip ==> !Seen(es, s, j)
    requires forall i :: 0 <= i < p ==> es[i].key.user <= skip
    ensures ScanOk(es, s, here + 1, p, true, skip)
  {
    forall i, j | 0 <= i < j < |es|
      ensures es[i].key.user <= es[j].key.user
    {
      assert Less(es[i].key, es[j].key);
    }
  }
}
