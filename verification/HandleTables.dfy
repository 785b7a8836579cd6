/** The hash table of the block cache: chained buckets linked through the entries themselves
    (HandleTable in util/cache.cc). */
module HandleTables {
  import opened DbFormat

  /** LRUHandle.  `deletions` counts how often its deleter has run. */
  class LRUHandle {
    const key: Bytes
    const hash: nat
    const charge: nat
    var nextHash: LRUHandle?
    var next: LRUHandle?
    var prev: LRUHandle?
    var inCache: bool
    var refs: nat
    ghost var deletions: nat

    constructor (key: Bytes, hash: nat, charge: nat)
      ensures this.key == key && this.hash == hash && this.charge == charge
      ensures refs == 1 && !inCache && deletions == 0
    {
      this.key, this.hash, this.charge := key, hash, charge;
      nextHash, next, prev, inCache, refs, deletions := null, null, null, false, 1, 0;
    }

    predicate Matches(key: Bytes, hash: nat) {
      this.hash == hash && this.key == key
    }
  }

  predicate IsPowerOfTwo(n: nat) {
    n == 1 || (n > 1 && n % 2 == 0 && IsPowerOfTwo(n / 2))
  }

  /** Bitwise and. */
  function And(a: nat, b: nat): nat
    decreases a
  {
    if a == 0 then 0 else 2 * And(a / 2, b / 2) + (a % 2) * (b % 2)
  }

  /** The bucket of a hash. */
  function Index(hash: nat, length: nat): (i: nat)
    requires length > 0
    ensures i < length
  {
    hash % length
  }

  /** For a power of two the remainder is what the mask leaves. */
  lemma {:induction false} IndexIsMasked(hash: nat, length: nat)
    requires IsPowerOfTwo(length)
    ensures Index(hash, length) == And(hash, length - 1)
    decreases hash
  {
    if hash == 0 {
    } else if length == 1 {
      NothingMasked(hash);
    } else {
      IndexIsMasked(hash / 2, length / 2);
      assert (length - 1) / 2 == length / 2 - 1 && (length - 1) % 2 == 1;
      RemainderOfHalf(hash, length / 2);
    }
  }

  lemma {:induction false} NothingMasked(a: nat)
    ensures And(a, 0) == 0
    decreases a
  {
    if a > 0 {
      NothingMasked(a / 2);
    }
  }

  lemma RemainderOfHalf(h: nat, m: nat)
    requires m > 0
    ensures h % (2 * m) == 2 * (h / 2 % m) + h % 2
  {
    var q, r := h / 2 / m, h / 2 % m;
    assert h / 2 == q * m + r;
    assert h == q * (2 * m) + (2 * r + h % 2);
    RemainderIs(q, 2 * r + h % 2, 2 * m);
  }

  lemma RemainderIs(q: nat, r: nat, n: nat)
    requires r < n
    ensures (q * n + r) % n == r
  {
    var x := q * n + r;
    var p, s := x / n, x % n;
    assert x == p * n + s;
    assert (p - q) * n == r - s;
    MultiplesApart(p - q, n);
  }

  lemma MultiplesApart(d: int, n: int)
    requires n > 0
    ensures d >= 1 ==> d * n >= n
    ensures d <= -1 ==> d * n <= -n
  {
  }

  predicate Distinct<T(==)>(c: seq<T>) {
    forall i, j :: 0 <= i < j < |c| ==> c[i] != c[j]
  }

  ghost function Nodes(c: seq<LRUHandle>): set<LRUHandle> {
    set x | x in c
  }

  ghost predicate Linked(c: seq<LRUHandle>, j: nat)
    requires j < |c|
    reads Nodes(c)`nextHash
  {
    c[j].nextHash == if j + 1 < |c| then c[j + 1] else null
  }

  /** Following `nextHash` from `p` visits exactly `c`. */
  ghost predicate Path(p: LRUHandle?, c: seq<LRUHandle>)
    reads Nodes(c)`nextHash
  {
    && p == (if c == [] then null else c[0])
    && forall j :: 0 <= j < |c| ==> Linked(c, j)
  }

  ghost predicate UniqueKeys(items: set<LRUHandle>) {
    forall a, b :: a in items && b in items && a.key == b.key && a.hash == b.hash ==> a == b
  }

  /** The buckets hold exactly the entries, each where its hash says; keys are unique. */
  ghost predicate Keyed(items: set<LRUHandle>, buckets: seq<seq<LRUHandle>>) {
    && |buckets| > 0 && UniqueKeys(items)
    && (forall i :: 0 <= i < |buckets| ==> Nodes(buckets[i]) <= items)
    && (forall h :: h in items ==> h in buckets[Index(h.hash, |buckets|)])
  }

  ghost predicate Placed(buckets: seq<seq<LRUHandle>>) {
    |buckets| > 0 && forall i, x :: 0 <= i < |buckets| && x in buckets[i] ==> Index(x.hash, |buckets|) == i
  }

  lemma KeyedWithout(items: set<LRUHandle>, buckets: seq<seq<LRUHandle>>, h: LRUHandle, i: nat, c: seq<LRUHandle>)
    requires Keyed(items, buckets) && Placed(buckets) && i < |buckets| && h in buckets[i]
    requires Nodes(c) == Nodes(buckets[i]) - {h}
    ensures Keyed(items - {h}, buckets[i := c])
  {
    var after := buckets[i := c];
    forall k | 0 <= k < |after| ensures Nodes(after[k]) <= items - {h} {
      if k != i {
        assert Index(h.hash, |buckets|) == i && h !in buckets[k];
      }
    }
    forall x | x in items - {h} ensures x in after[Index(x.hash, |buckets|)] {
      assert x in buckets[Index(x.hash, |buckets|)];
      assert Index(x.hash, |buckets|) == i ==> x in Nodes(c);
    }
  }

  lemma KeyedWith(items: set<LRUHandle>, buckets: seq<seq<LRUHandle>>, h: LRUHandle, old0: set<LRUHandle>, i: nat,
                  c: seq<LRUHandle>)
    requires Keyed(items, buckets) && Placed(buckets) && i < |buckets| && i == Index(h.hash, |buckets|)
    requires Nodes(c) == Nodes(buckets[i]) - old0 + {h} && old0 <= Nodes(buckets[i])
    requires forall x :: x in items && x.key == h.key && x.hash == h.hash ==> x in old0
    ensures Keyed(items - old0 + {h}, buckets[i := c])
  {
    var after, more := buckets[i := c], items - old0 + {h};
    forall k | 0 <= k < |after| ensures Nodes(after[k]) <= more {
      if k != i {
        assert forall x :: x in old0 ==> x in buckets[i];
        assert forall x :: x in buckets[k] ==> x !in old0;
      }
    }
    forall x | x in more ensures x in after[Index(x.hash, |buckets|)] {
      if x != h {
        assert x in buckets[Index(x.hash, |buckets|)];
      }
      assert Index(x.hash, |buckets|) == i ==> x in Nodes(c);
    }
  }

  /** A place that holds a pointer: the head of a bucket, or the link of an entry. */
  datatype Slot = Head(index: nat) | After(entry: LRUHandle)

  class HandleTable {
    var length: nat
    var elems: nat
    var list: array<LRUHandle?>
    ghost var buckets: seq<seq<LRUHandle>>
    ghost var items: set<LRUHandle>

    ghost predicate Bucket(i: nat)
      requires i < |buckets| && i < list.Length && length > 0
      reads `buckets, `length, `list, list, Nodes(buckets[i])`nextHash
    {
      && Path(list[i], buckets[i]) && Distinct(buckets[i])
      && forall x :: x in buckets[i] ==> Index(x.hash, length) == i
    }

    /** Every bucket is a chain of known entries. */
    ghost predicate Chains()
      reads `buckets, `length, `list, `items, list, items`nextHash
    {
      && length == list.Length == |buckets| && length >= 4
      && (forall i :: 0 <= i < length ==> Nodes(buckets[i]) <= items)
      && (forall i :: 0 <= i < length ==> Bucket(i))
    }

    ghost predicate Consistent()
      reads this, list, items`nextHash
    {
      Chains() && elems == |items| && Keyed(items, buckets) && IsPowerOfTwo(length)
    }

    /** On average a chain holds one entry at most. */
    ghost predicate Valid()
      reads this, list, items`nextHash
    {
      Consistent() && elems <= length
    }

    constructor ()
      ensures Valid() && fresh(list) && items == {}
    {
      length, elems := 4, 0;
      assert IsPowerOfTwo(2);
      list := new LRUHandle?[4](i => null);
      buckets, items := [[], [], [], []], {};
    }

    function Deref(s: Slot): LRUHandle?
      requires s.Head? ==> s.index < list.Length
      reads this`list, list, if s.After? then {s.entry} else {}
    {
      match s
      case Head(i) => list[i]
      case After(h) => h.nextHash
    }

    /** The slot is the one before position `j` of bucket `i`. */
    ghost predicate SlotAt(s: Slot, i: nat, j: nat)
      requires i < |buckets|
      reads this
    {
      j <= |buckets[i]| && s == if j == 0 then Head(i) else After(buckets[i][j - 1])
    }

    /** FindPointer: the slot that points to the entry with the key, or else the trailing
        slot of the bucket. */
    method FindPointer(key: Bytes, hash: nat) returns (s: Slot, ghost i: nat, ghost j: nat)
      requires Valid()
      ensures i == Index(hash, length) && i < length == |buckets| == list.Length && SlotAt(s, i, j) && Bucket(i)
      ensures j < |buckets[i]| ==> buckets[i][j].Matches(key, hash)
      ensures forall x :: 0 <= x < j ==> !buckets[i][x].Matches(key, hash)
    {
      i, j := Index(hash, length), 0;
      assert Bucket(i);
      s := Head(Index(hash, length));
      var p := list[Index(hash, length)];
      while p != null && !p.Matches(key, hash)
        invariant SlotAt(s, i, j) && p == (if j < |buckets[i]| then buckets[i][j] else null)
        invariant forall x :: 0 <= x < j ==> !buckets[i][x].Matches(key, hash)
        decreases |buckets[i]| - j
      {
        assert Linked(buckets[i], j);
        s := After(p);
        p := p.nextHash;
        j := j + 1;
      }
    }

    method Lookup(key: Bytes, hash: nat) returns (r: LRUHandle?)
      requires Valid()
      ensures r != null ==> r in items && r.Matches(key, hash)
      ensures r == null ==> forall h :: h in items ==> !h.Matches(key, hash)
    {
      ghost var i: nat, j: nat;
      var s;
      s, i, j := FindPointer(key, hash);
      if j > 0 {
        assert Linked(buckets[i], j - 1);
      }
      r := Deref(s);
    }

    /** Store a pointer in a slot: the chain goes on with what the pointer leads to. */
    method Store(s: Slot, p: LRUHandle?, ghost i: nat, ghost j: nat, ghost tail: seq<LRUHandle>)
      requires Chains() && i < length && SlotAt(s, i, j)
      requires Nodes(tail) <= items && Path(p, tail) && Distinct(buckets[i][..j] + tail)
      requires forall x :: x in tail ==> Index(x.hash, length) == i
      modifies list, `buckets
      modifies (if s.After? then {s.entry} else {})`nextHash
      ensures Chains() && buckets == old(buckets)[i := old(buckets)[i][..j] + tail]
    {
      assert Bucket(i);
      ghost var c := buckets[i];
      match s {
        case Head(_) => list[s.index] := p;
        case After(h) => h.nextHash := p;
      }
      buckets := buckets[i := c[..j] + tail];
      forall k | 0 <= k < length ensures Bucket(k) {
        assert old(Bucket(k));
        if k != i {
          assert forall x :: 0 <= x < |buckets[k]| ==> old(Linked(buckets[k], x)) && Linked(buckets[k], x);
        } else {
          forall x | 0 <= x < |buckets[i]| ensures Linked(buckets[i], x) {
            if x + 1 < j {
              assert old(Linked(c, x));
              assert buckets[i][x] == c[x] && buckets[i][x + 1] == c[x + 1] && c[x] != c[j - 1];
            } else if x + 1 == j {
              assert buckets[i][x] == c[x];
              assert tail != [] ==> buckets[i][j] == tail[0];
            } else {
              assert old(Linked(tail, x - j));
              assert j > 0 ==> buckets[i][j - 1] == c[j - 1] && buckets[i][x] != buckets[i][j - 1];
              assert buckets[i][x] == tail[x - j] && (x + 1 < |buckets[i]| ==> buckets[i][x + 1] == tail[x - j + 1]);
            }
          }
        }
      }
    }

    lemma DerefIs(s: Slot, i: nat, j: nat)
      requires Chains() && i < length && SlotAt(s, i, j)
      ensures s.Head? ==> s.index < list.Length
      ensures s.After? ==> s.entry in items
      ensures Deref(s) == if j < |buckets[i]| then buckets[i][j] else null
    {
      assert Bucket(i);
      if j > 0 {
        assert Linked(buckets[i], j - 1);
      }
    }

    lemma ChainsArePlaced()
      requires Chains()
      ensures Placed(buckets)
    {
      forall i, x | 0 <= i < |buckets| && x in buckets[i] ensures Index(x.hash, |buckets|) == i {
        assert Bucket(i);
      }
    }

    /** Where the entry with the key is, nothing else matches. */
    lemma OnlyMatch(key: Bytes, hash: nat, i: nat, j: nat)
      requires Valid() && i == Index(hash, length) && j <= |buckets[i]|
      requires j < |buckets[i]| ==> buckets[i][j].Matches(key, hash)
      requires forall x :: 0 <= x < j ==> !buckets[i][x].Matches(key, hash)
      ensures forall x :: x in items && x.Matches(key, hash) ==> j < |buckets[i]| && x == buckets[i][j]
    {
    }

    /** The chain without its entry at `j`. */
    lemma BucketWithout(i: nat, j: nat)
      requires Chains() && i < length && j < |buckets[i]|
      ensures var c := buckets[i];
        && Path(c[j].nextHash, c[j + 1..]) && Nodes(c[j + 1..]) <= items && c[j] in items
        && Distinct(c[..j] + c[j + 1..]) && Nodes(c[..j] + c[j + 1..]) == Nodes(c) - {c[j]}
        && (forall x :: x in c ==> Index(x.hash, length) == i)
    {
      assert Bucket(i);
      var c := buckets[i];
      var rest := c[j + 1..];
      assert Linked(c, j);
      forall x | 0 <= x < |rest| ensures Linked(rest, x) {
        assert Linked(c, j + 1 + x);
      }
      forall x | x in c && x != c[j] ensures x in c[..j] + rest {
        var p :| 0 <= p < |c| && c[p] == x;
        if p < j {
          assert c[..j][p] == x;
        } else {
          assert rest[p - j - 1] == x;
        }
      }
    }

    /** Remove: take the entry with the key out of its chain. */
    method Remove(key: Bytes, hash: nat) returns (result: LRUHandle?)
      requires Valid()
      modifies this`elems, this`buckets, this`items, list, items`nextHash
      ensures Valid() && items == old(items) - (if result == null then {} else {result})
      ensures result != null ==> result in old(items) && result.Matches(key, hash)
      ensures result == null ==> forall h :: h in items ==> !h.Matches(key, hash)
    {
      hide Keyed, Distinct, Path, HandleTable.Bucket;
      ghost var i: nat, j: nat;
      var s;
      s, result, i, j := FindEntry(key, hash);
      if result != null {
        BucketWithout(i, j);
        ChainsArePlaced();
        ghost var c := buckets[i];
        KeyedWithout(items, buckets, result, i, c[..j] + c[j + 1..]);
        Store(s, result.nextHash, i, j, c[j + 1..]);
        elems := elems - 1;
        items := items - {result};
        KeyedInside(items, buckets);
      }
    }

    /** The chain with `h` in place of its entry at `j`, or at its end. */
    lemma BucketWith(i: nat, j: nat, h: LRUHandle)
      requires Chains() && i < length && j <= |buckets[i]| && h !in items && h in items + {h}
      requires h.nextHash == if j < |buckets[i]| then buckets[i][j].nextHash else null
      requires Index(h.hash, length) == i
      ensures var c := buckets[i]; var tail := [h] + (if j < |c| then c[j + 1..] else []);
        && Path(h, tail) && Nodes(tail) <= items + {h} && Distinct(c[..j] + tail)
        && Nodes(c[..j] + tail) == Nodes(c) - (if j < |c| then {c[j]} else {}) + {h}
        && (forall x :: x in tail ==> Index(x.hash, length) == i)
    {
      var c := buckets[i];
      assert Bucket(i);
      var rest := if j < |c| then c[j + 1..] else [];
      var tail := [h] + rest;
      if j < |c| {
        BucketWithout(i, j);
        assert Nodes(c[..j] + tail) == Nodes(c[..j] + rest) + {h};
      } else {
        assert c[..j] == c;
      }
      forall x | 0 <= x < |tail| ensures Linked(tail, x) {
        if x > 0 {
          assert Linked(rest, x - 1);
        }
      }
    }

    /** The entry takes the place of the one with its key, or joins the end of its chain. */
    method LinkIn(h: LRUHandle) returns (previous: LRUHandle?)
      requires Valid() && h !in items
      modifies this`elems, this`buckets, this`items, list, items`nextHash, h`nextHash
      ensures Consistent() && items == old(items) - Gone(previous) + {h}
      ensures previous != null ==> previous in old(items) && previous.Matches(h.key, h.hash)
      ensures previous == null ==> forall x :: x in old(items) ==> !x.Matches(h.key, h.hash)
    {
      hide Keyed, Distinct, Path, HandleTable.Bucket, HandleTable.Chains, IsPowerOfTwo;
      ghost var i: nat, j: nat;
      var s;
      s, previous, i, j := FindEntry(h.key, h.hash);
      SetNextHash(h, if previous == null then null else previous.nextHash);
      ghost var tail := Prepared(h, previous, i, j);
      Place(s, h, i, j, tail, Gone(previous));
      if previous == null {
        elems := elems + 1;
      }
    }

    /** FindPointer, and what the slot points to. */
    method FindEntry(key: Bytes, hash: nat) returns (s: Slot, entry: LRUHandle?, ghost i: nat, ghost j: nat)
      requires Valid()
      ensures i == Index(hash, length) && i < length == |buckets| == list.Length && SlotAt(s, i, j)
      ensures s.After? ==> s.entry in items
      ensures entry == if j < |buckets[i]| then buckets[i][j] else null
      ensures entry != null ==> entry in items && entry.Matches(key, hash)
      ensures forall x :: x in items && x.Matches(key, hash) ==> x == entry
    {
      s, i, j := FindPointer(key, hash);
      DerefIs(s, i, j);
      OnlyMatch(key, hash, i, j);
      entry := Deref(s);
    }

    static ghost function Gone(previous: LRUHandle?): (g: set<LRUHandle>)
      ensures |g| == if previous == null then 0 else 1
    {
      if previous == null then {} else {previous}
    }

    /** What goes after the slot, and that it may. */
    lemma Prepared(h: LRUHandle, previous: LRUHandle?, i: nat, j: nat) returns (tail: seq<LRUHandle>)
      requires Chains() && Keyed(items, buckets) && h !in items
      requires i == Index(h.hash, length) && j <= |buckets[i]|
      requires previous == if j < |buckets[i]| then buckets[i][j] else null
      requires h.nextHash == if previous == null then null else previous.nextHash
      requires forall x :: x in items && x.Matches(h.key, h.hash) ==> x == previous
      ensures Nodes(tail) <= items + {h} && Path(h, tail) && Distinct(buckets[i][..j] + tail)
      ensures forall x :: x in tail ==> Index(x.hash, length) == i
      ensures Gone(previous) <= items && Keyed(items - Gone(previous) + {h}, buckets[i := buckets[i][..j] + tail])
    {
      hide Keyed, Distinct, Path, HandleTable.Bucket;
      ChainsArePlaced();
      var c := buckets[i];
      BucketWith(i, j, h);
      tail := [h] + (if j < |c| then c[j + 1..] else []);
      KeyedWith(items, buckets, h, Gone(previous), i, c[..j] + tail);
    }

    /** Store the pointer to an entry that the table did not have. */
    method Place(s: Slot, h: LRUHandle, ghost i: nat, ghost j: nat, ghost tail: seq<LRUHandle>, ghost gone: set<LRUHandle>)
      requires Chains() && i < length && SlotAt(s, i, j) && h !in items && gone <= items
      requires Nodes(tail) <= items + {h} && Path(h, tail) && Distinct(buckets[i][..j] + tail)
      requires forall x :: x in tail ==> Index(x.hash, length) == i
      requires Keyed(items - gone + {h}, buckets[i := buckets[i][..j] + tail])
      modifies list, `buckets, `items, (if s.After? then {s.entry} else {})`nextHash
      ensures Chains() && items == old(items) - gone + {h} && Keyed(items, buckets)
      ensures |items| == |old(items)| - |gone| + 1
    {
      hide Keyed, Distinct, Path, HandleTable.Bucket;
      items := items + {h};
      Store(s, h, i, j, tail);
      items := items - gone;
      assert items == old(items) - gone + {h};
      KeyedInside(items, buckets);
    }

    method SetNextHash(h: LRUHandle, p: LRUHandle?)
      requires Chains() && h !in items
      modifies h`nextHash
      ensures Chains() && h.nextHash == p
    {
      h.nextHash := p;
    }

    /** Insert: link the entry in, and grow the table exactly when it has more entries than
        buckets. */
    method Insert(h: LRUHandle) returns (previous: LRUHandle?)
      requires Valid() && h !in items
      modifies this, list, items`nextHash, h`nextHash
      ensures Valid() && items == old(items) - Gone(previous) + {h} && (list == old(list) || fresh(list))
      ensures list == old(list) <==> |items| <= old(length)
      ensures previous != null ==> previous in old(items) && previous.Matches(h.key, h.hash)
      ensures previous == null ==> forall x :: x in old(items) ==> !x.Matches(h.key, h.hash)
    {
      hide Keyed, HandleTable.Chains;
      previous := LinkIn(h);
      if previous == null && elems > length {
        Resize();
      }
    }

    /** The next length: the least power of two, from 4 on, with a bucket for every entry. */
    method NewLength() returns (newLength: nat)
      ensures newLength >= 4 && newLength >= elems && IsPowerOfTwo(newLength)
      ensures newLength == 4 || newLength < 2 * elems
    {
      newLength := 4;
      assert IsPowerOfTwo(2);
      while newLength < elems
        invariant newLength >= 4 && IsPowerOfTwo(newLength)
        invariant newLength == 4 || newLength < 2 * elems
        decreases elems - newLength
      {
        newLength := newLength * 2;
      }
    }

    /** Resize: move every entry to the bucket that a longer table gives it. */
    method Resize()
      requires Consistent()
      modifies `length, `list, `buckets, items`nextHash
      ensures Valid() && fresh(list) && (length == 4 || length < 2 * elems)
    {
      hide NewChains, UniqueKeys, Placed, HandleTable.Bucket;
      var newLength := NewLength();
      var newList := new LRUHandle?[newLength](i => null);
      ghost var newBuckets: seq<seq<LRUHandle>>;
      var count;
      newBuckets, count := MoveAll(newList);
      assert elems == count;
      list, length, buckets := newList, newLength, newBuckets;
      NewChainsSuffice();
    }

    method MoveAll(newList: array<LRUHandle?>) returns (ghost newBuckets: seq<seq<LRUHandle>>, count: nat)
      requires Consistent() && list != newList && newList.Length > 0 && forall i :: 0 <= i < newList.Length ==> newList[i] == null
      modifies newList, items`nextHash
      ensures NewChains(newList, newBuckets, items) && |newBuckets| == newList.Length && count == |items|
    {
      newBuckets := seq(newList.Length, i => []);
      count := 0;
      ChainsArePlaced();
      assert NewChains(newList, newBuckets, Before(0));
      hide NewChains, UniqueKeys, Placed, HandleTable.Bucket;
      for i := 0 to length
        invariant NewChains(newList, newBuckets, Before(i)) && newList.Length == |newBuckets|
        invariant forall k :: i <= k < length ==> Bucket(k)
        invariant count == |Before(i)|
      {
        var n;
        newBuckets, n := MoveBucket(i, newList, newBuckets);
        count := count + n;
      }
      AllMoved();
    }

    method MoveBucket(i: nat, newList: array<LRUHandle?>, ghost before: seq<seq<LRUHandle>>)
      returns (ghost after: seq<seq<LRUHandle>>, n: nat)
      requires i < length == |buckets| == list.Length && list != newList && Placed(buckets)
      requires NewChains(newList, before, Before(i)) && newList.Length == |before| > 0
      requires forall k :: i <= k < length ==> Bucket(k)
      modifies newList, Nodes(buckets[i])`nextHash
      ensures NewChains(newList, after, Before(i + 1)) && |after| == newList.Length
      ensures forall k :: i < k < length ==> Bucket(k)
      ensures |Before(i + 1)| == |Before(i)| + n
    {
      hide NewChains, Placed, HandleTable.Bucket, HandleTable.Before;
      NotYetMoved(i);
      BucketIs(i);
      label before:
      after, n := MoveChain(list[i], buckets[i], newList, before, Before(i));
      forall k | i < k < length ensures Bucket(k) {
        assert old@before(Bucket(k)) && Nodes(buckets[k]) !! Nodes(buckets[i]);
      }
    }

    /** The entries of the first buckets. */
    ghost function Before(i: nat): set<LRUHandle>
      requires i <= |buckets|
      reads `buckets
    {
      set k, x | 0 <= k < i && x in buckets[k] :: x
    }

    lemma NotYetMoved(i: nat)
      requires length == |buckets| && Placed(buckets) && i < length
      ensures Nodes(buckets[i]) !! Before(i) && Before(i + 1) == Before(i) + Nodes(buckets[i])
      ensures forall k :: 0 <= k < length && k != i ==> Nodes(buckets[k]) !! Nodes(buckets[i])
    {
      Separate(i);
    }

    lemma AllMoved()
      requires Keyed(items, buckets)
      ensures Before(|buckets|) == items
    {
      forall x | x in items ensures x in Before(|buckets|) {
        assert x in buckets[Index(x.hash, |buckets|)];
      }
    }

    lemma NewChainsSuffice()
      requires NewChains(list, buckets, items) && UniqueKeys(items) && elems == |items|
      requires length == list.Length >= 4 && IsPowerOfTwo(length) && elems <= length
      ensures Valid()
    {
      forall i | 0 <= i < length ensures Bucket(i) {
        assert NewChain(list[i], buckets, items, i);
      }
      forall h | h in items ensures h in buckets[Index(h.hash, length)] {
        assert Arrived(buckets, h);
      }
      forall i | 0 <= i < length ensures Nodes(buckets[i]) <= items {
        assert NewChain(list[i], buckets, items, i);
      }
    }

    lemma Separate(i: nat)
      requires length == |buckets| && Placed(buckets) && i < length
      ensures forall k :: 0 <= k < length && k != i ==> Nodes(buckets[k]) !! Nodes(buckets[i])
    {
      forall k | 0 <= k < length && k != i ensures Nodes(buckets[k]) !! Nodes(buckets[i]) {
        forall x | x in buckets[k] ensures x !in buckets[i] {
          assert Index(x.hash, |buckets|) == k;
        }
      }
    }

    /** One old chain, entry by entry; each goes to the front of its new chain. */
    static method MoveChain(head: LRUHandle?, ghost c: seq<LRUHandle>, newList: array<LRUHandle?>,
                            ghost before: seq<seq<LRUHandle>>, ghost moved: set<LRUHandle>)
      returns (ghost after: seq<seq<LRUHandle>>, count: nat)
      requires NewChains(newList, before, moved) && newList.Length == |before| > 0
      requires Path(head, c) && Distinct(c) && Nodes(c) !! moved
      modifies newList, Nodes(c)`nextHash
      ensures NewChains(newList, after, moved + Nodes(c)) && count == |Nodes(c)| && |after| == newList.Length
    {
      hide Path, NewChains, Distinct;
      after, count := before, 0;
      var h := head;
      ghost var rest := c;
      assert c[..0] == [] && c[0..] == c && moved + Nodes([]) == moved;
      ghost var done: set<LRUHandle> := {};
      assert moved + done == moved;
      while h != null
        invariant count <= |c| && rest == c[count..] && Path(h, rest)
        invariant done == Nodes(c[..count]) && count == |done|
        invariant NewChains(newList, after, moved + done) && newList.Length == |after|
        decreases |rest|
      {
        PathHead(h, rest);
        OneTaken(c, count, moved);
        after, h := MoveHead(h, newList, after, moved, done, rest);
        done := done + {c[count]};
        rest := rest[1..];
        count := count + 1;
      }
      PathEnd(rest);
      assert c[..count] == c;
    }

    static method MoveHead(h: LRUHandle, newList: array<LRUHandle?>, ghost before: seq<seq<LRUHandle>>,
                           ghost moved: set<LRUHandle>, ghost done: set<LRUHandle>, ghost rest: seq<LRUHandle>)
      returns (ghost after: seq<seq<LRUHandle>>, next: LRUHandle?)
      requires NewChains(newList, before, moved + done) && newList.Length > 0
      requires rest != [] && Path(h, rest) && h !in Nodes(rest[1..]) && h !in moved && h !in done
      modifies newList, h`nextHash
      ensures NewChains(newList, after, moved + (done + {h})) && |after| == newList.Length
      ensures Path(next, rest[1..])
    {
      hide Path, NewChains;
      PathHead(h, rest);
      TailPath(rest);
      next := h.nextHash;
      after := MoveOne(h, newList, before, moved + done);
      assert moved + done + {h} == moved + (done + {h});
    }

    lemma BucketIs(i: nat)
      requires i < |buckets| && i < list.Length && length > 0 && Bucket(i)
      ensures Path(list[i], buckets[i]) && Distinct(buckets[i])
    {
    }

    static lemma PathHead(h: LRUHandle, c: seq<LRUHandle>)
      requires Path(h, c)
      ensures c != [] && c[0] == h
    {
    }

    static lemma PathEnd(c: seq<LRUHandle>)
      requires Path(null, c)
      ensures c == []
    {
    }

    static lemma OneTaken(c: seq<LRUHandle>, n: nat, moved: set<LRUHandle>)
      requires Distinct(c) && n < |c| && Nodes(c) !! moved
      ensures c[n..][0] == c[n] && c[n..][1..] == c[n + 1..]
      ensures c[n] !in Nodes(c[n + 1..]) && c[n] !in moved && c[n] !in Nodes(c[..n])
      ensures Nodes(c[..n + 1]) == Nodes(c[..n]) + {c[n]}
    {
    }

    static lemma TailPath(c: seq<LRUHandle>)
      requires c != [] && Path(c[0], c)
      ensures Path(c[0].nextHash, c[1..])
    {
      assert Linked(c, 0);
      forall x | 0 <= x < |c[1..]| ensures Linked(c[1..], x) {
        assert Linked(c, x + 1);
      }
    }

    static method MoveOne(h: LRUHandle, newList: array<LRUHandle?>, ghost before: seq<seq<LRUHandle>>,
                          ghost moved: set<LRUHandle>)
      returns (ghost after: seq<seq<LRUHandle>>)
      requires NewChains(newList, before, moved) && h !in moved && newList.Length > 0
      modifies newList, h`nextHash
      ensures NewChains(newList, after, moved + {h}) && |after| == newList.Length
    {
      var n := Index(h.hash, newList.Length);
      h.nextHash := newList[n];
      newList[n] := h;
      after := before[n := [h] + before[n]];
      forall k | 0 <= k < |after| ensures NewChain(newList[k], after, moved + {h}, k) {
        assert old(NewChain(newList[k], before, moved, k));
        forall x | 0 <= x < |after[k]| ensures Linked(after[k], x) {
          if k != n {
            assert old(Linked(before[k], x));
          } else if x > 0 {
            assert old(Linked(before[k], x - 1));
          }
        }
      }
      forall x | x in moved + {h} ensures Arrived(after, x) {
        if x != h {
          assert Arrived(before, x);
        }
      }
    }
  }

  ghost predicate NewChain(p: LRUHandle?, buckets: seq<seq<LRUHandle>>, moved: set<LRUHandle>, n: nat)
    requires n < |buckets|
    reads Nodes(buckets[n])`nextHash
  {
    && Nodes(buckets[n]) <= moved && Path(p, buckets[n]) && Distinct(buckets[n])
    && forall x :: x in buckets[n] ==> Index(x.hash, |buckets|) == n
  }

  ghost predicate Arrived(buckets: seq<seq<LRUHandle>>, x: LRUHandle)
    requires |buckets| > 0
  {
    x in buckets[Index(x.hash, |buckets|)]
  }

  /** A table in the making: chains of the entries moved so far, each in its place. */
  ghost predicate NewChains(list: array<LRUHandle?>, buckets: seq<seq<LRUHandle>>, moved: set<LRUHandle>)
    reads list, moved`nextHash
  {
    && |buckets| == list.Length > 0
    && (forall n :: 0 <= n < |buckets| ==> Nodes(buckets[n]) <= moved)
    && (forall n :: 0 <= n < |buckets| ==> NewChain(list[n], buckets, moved, n))
    && (forall x :: x in moved ==> Arrived(buckets, x))
  }

  lemma KeyedInside(items: set<LRUHandle>, buckets: seq<seq<LRUHandle>>)
    requires Keyed(items, buckets)
    ensures forall i :: 0 <= i < |buckets| ==> Nodes(buckets[i]) <= items
  {
  }
}