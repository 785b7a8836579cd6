/** One shard of the block cache (LRUCache in util/cache.cc).  Every method runs under the
    mutex of the shard. */
module LruCaches {
  import opened DbFormat
  import opened HandleTables
  import opened LruLists

  class LRUCache {
    const capacity: nat
    var usage: nat
    const lru: LRUHandle
    const inUse: LRUHandle
    const table: HandleTable
    /** The entries of the two lists, oldest first. */
    ghost var idle: seq<LRUHandle>
    ghost var busy: seq<LRUHandle>
    /** How many handles the callers hold of each entry that was ever inserted. */
    ghost var clients: map<LRUHandle, nat>

    /** Both lists are intact, and nothing is in both or twice in one. */
    ghost predicate Lists()
      reads `idle, `busy, Ringed()`next, Ringed()`prev
    {
      && Ring(lru, idle) && Ring(inUse, busy)
      && Distinct(idle) && Distinct(busy) && Nodes(idle) !! Nodes(busy)
      && lru != inUse && {lru, inUse} !! (Nodes(idle) + Nodes(busy))
    }

    /** The reference count is what the callers hold and the cache holds; the deleter has
        run if and only if nobody holds the entry any more, and then once. */
    ghost predicate Counted(h: LRUHandle)
      requires h in clients
      reads `clients, h`refs, h`inCache, h`deletions
    {
      CountedWith(h, clients[h])
    }

    ghost predicate Counts()
      reads `clients, clients.Keys`refs, clients.Keys`inCache, clients.Keys`deletions
    {
      forall h :: h in clients ==> Counted(h)
    }

    ghost function Cached(): set<LRUHandle>
      reads `idle, `busy
    {
      Nodes(idle) + Nodes(busy)
    }

    /** The nodes that the lists are made of. */
    ghost function Ringed(): set<LRUHandle>
      reads `idle, `busy
    {
      Cached() + {lru, inUse}
    }

    ghost predicate Flagged()
      reads `idle, `busy, `clients, clients.Keys`inCache
    {
      forall h :: h in clients ==> (h.inCache <==> h in Cached())
    }

    ghost predicate Sorted()
      reads `idle, `busy, `clients, clients.Keys`inCache
    {
      Flagged() && Held(Nodes(idle), Nodes(busy), clients) && {lru, inUse} !! clients.Keys
    }

    /** All of the cache but its table. */
    ghost predicate Entries()
      reads `idle, `busy, `clients, `usage, Ringed()`next, Ringed()`prev
      reads clients.Keys`refs, clients.Keys`inCache, clients.Keys`deletions
    {
      Lists() && Counts() && Sorted() && usage == Charge(idle) + Charge(busy)
    }

    ghost predicate Valid()
      reads this, table, table.list, table.items`nextHash, Ringed()`next, Ringed()`prev
      reads clients.Keys`refs, clients.Keys`inCache, clients.Keys`deletions
    {
      Entries() && table.Valid() && table.items == Cached()
    }

    constructor (capacity: nat)
      ensures Valid() && clients == map[] && usage == 0 && this.capacity == capacity
      ensures fresh(table) && fresh(table.list) && fresh(lru) && fresh(inUse)
    {
      this.capacity, usage := capacity, 0;
      var a := new LRUHandle([], 0, 0);
      var b := new LRUHandle([], 0, 0);
      var t := new HandleTable();
      a.next, a.prev, b.next, b.prev := a, a, b, b;
      lru, inUse, table := a, b, t;
      idle, busy, clients := [], [], map[];
    }

    /** From one of the lists, wherever the entry is. */
    method Unlist(e: LRUHandle)
      requires Lists() && e in idle + busy
      modifies `idle, `busy, Ringed()`next, Ringed()`prev
      ensures Lists() && idle == Without(old(idle), e) && busy == Without(old(busy), e)
    {
      WithoutFacts(idle, e);
      WithoutFacts(busy, e);
      ghost var head := if e in idle then lru else inUse;
      ghost var s := if e in idle then idle else busy;
      RingHasLinks(head, s, e);
      hide Ring, Without, Distinct;
      Remove(e, head, s);
      assert e in old(idle) ==> Ring(inUse, busy);
      assert e !in old(idle) ==> Ring(lru, idle);
      idle, busy := Without(idle, e), Without(busy, e);
    }

    method AppendBusy(e: LRUHandle)
      requires Lists() && e !in Ringed()
      modifies `busy, Ringed()`next, Ringed()`prev, e`next, e`prev
      ensures Lists() && busy == old(busy) + [e]
    {
      RingHasLinks(inUse, busy, inUse);
      Append(inUse, e, busy);
      busy := busy + [e];
    }

    method AppendIdle(e: LRUHandle)
      requires Lists() && e !in Ringed()
      modifies `idle, Ringed()`next, Ringed()`prev, e`next, e`prev
      ensures Lists() && idle == old(idle) + [e]
    {
      RingHasLinks(lru, idle, lru);
      Append(lru, e, idle);
      idle := idle + [e];
    }

    /** To the end of the in-use list. */
    method MoveToBusy(e: LRUHandle)
      requires Lists() && e in idle
      modifies `idle, `busy, Ringed()`next, Ringed()`prev
      ensures Lists() && idle == Without(old(idle), e) && busy == old(busy) + [e]
      ensures Nodes(idle) == old(Nodes(idle)) - {e} && Nodes(busy) == old(Nodes(busy)) + {e}
      ensures Cached() == old(Cached()) && Charge(idle) + Charge(busy) == old(Charge(idle) + Charge(busy))
    {
      hide Ring, Without, Distinct, Charge;
      ListFacts(e);
      Unlist(e);
      AppendBusy(e);
    }

    /** To the end of the list of idle entries: the newest of them. */
    method MoveToIdle(e: LRUHandle)
      requires Lists() && e in busy
      modifies `idle, `busy, Ringed()`next, Ringed()`prev
      ensures Lists() && idle == old(idle) + [e] && busy == Without(old(busy), e)
      ensures Nodes(idle) == old(Nodes(idle)) + {e} && Nodes(busy) == old(Nodes(busy)) - {e}
      ensures Cached() == old(Cached()) && Charge(idle) + Charge(busy) == old(Charge(idle) + Charge(busy))
    {
      hide Ring, Without, Distinct, Charge;
      ListFacts(e);
      Unlist(e);
      AppendIdle(e);
    }

    lemma ListFacts(e: LRUHandle)
      requires Lists()
      ensures forall s :: s == idle || s == busy ==>
        && Nodes(Without(s, e)) == Nodes(s) - {e}
        && (e in s ==> Charge(Without(s, e)) + e.charge == Charge(s))
        && (e !in s ==> Without(s, e) == s)
        && Charge(s + [e]) == Charge(s) + e.charge && Nodes(s + [e]) == Nodes(s) + {e}
    {
      WithoutFacts(idle, e);
      WithoutFacts(busy, e);
      ChargeAppend(idle, e);
      ChargeAppend(busy, e);
    }

    /** Ref: one more holder; an idle entry becomes busy. */
    method Ref(e: LRUHandle)
      requires Entries() && e in Cached()
      modifies `idle, `busy, `clients, Ringed()`next, Ringed()`prev, e`refs
      ensures Entries() && Cached() == old(Cached()) && clients == old(clients)[e := old(clients)[e] + 1]
      ensures old(clients)[e] == 0 ==> idle == Without(old(idle), e) && busy == old(busy) + [e]
      ensures old(clients)[e] > 0 ==> idle == old(idle) && busy == old(busy)
    {
      hide Ring, Distinct, LRUCache.Counts, Without, Charge, Held;
      OneIsHeld(Nodes(idle), Nodes(busy), clients, e);
      CountOf(e);
      HeldOnceMore(Nodes(idle), Nodes(busy), clients, e);
      if e.refs == 1 && e.inCache {
        MoveToBusy(e);
      }
      AddHolder(e);
    }

    lemma CountOf(e: LRUHandle)
      requires Counts() && e in clients
      ensures Counted(e)
    {
    }

    method AddHolder(e: LRUHandle)
      requires Counts() && e in clients && e.refs > 0
      modifies `clients, e`refs
      ensures Counts() && clients == old(clients)[e := old(clients)[e] + 1] && e.refs == old(e.refs) + 1
    {
      e.refs := e.refs + 1;
      clients := clients[e := clients[e] + 1];
      forall h | h in clients ensures Counted(h) {
        assert old(Counted(h));
      }
    }

    /** Unref: the last holder runs the deleter; an entry that only the cache still holds
        becomes the newest idle one. */
    method Unref(e: LRUHandle)
      requires Lists() && e.refs > 0
      requires e.refs == 1 ==> !e.inCache
      requires e.refs == 2 && e.inCache ==> e in busy
      modifies `idle, `busy, Ringed()`next, Ringed()`prev, e`refs, e`deletions
      ensures Lists() && e.refs == old(e.refs) - 1
      ensures e.deletions == old(e.deletions) + (if e.refs == 0 then 1 else 0)
      ensures Cached() == old(Cached()) && Charge(idle) + Charge(busy) == old(Charge(idle) + Charge(busy))
      ensures if e.inCache && e.refs == 1
        then idle == old(idle) + [e] && busy == Without(old(busy), e) &&
             Nodes(idle) == old(Nodes(idle)) + {e} && Nodes(busy) == old(Nodes(busy)) - {e}
        else idle == old(idle) && busy == old(busy)
    {
      hide Ring, Distinct, Without, Charge;
      e.refs := e.refs - 1;
      if e.refs == 0 {
        e.deletions := e.deletions + 1;
      } else if e.inCache && e.refs == 1 {
        MoveToIdle(e);
      }
    }

    ghost predicate CountedWith(h: LRUHandle, held: nat)
      reads h`refs, h`inCache, h`deletions
    {
      h.refs == held + (if h.inCache then 1 else 0) && h.deletions == (if h.refs == 0 then 1 else 0)
    }

    ghost method SetHolders(e: LRUHandle, held: nat)
      requires e in clients && CountedWith(e, held)
      requires forall h :: h in clients && h != e ==> Counted(h)
      modifies `clients
      ensures Counts() && clients == old(clients)[e := held]
    {
      clients := clients[e := held];
      forall h | h in clients ensures Counted(h) {
        assert h != e ==> old(Counted(h));
      }
    }

    lemma Recounted(e: LRUHandle)
      requires e in clients && Counted(e)
      requires forall h :: h in clients && h != e ==> Counted(h)
      ensures Counts()
    {
    }

    /** One handle fewer. */
    method GiveBack(e: LRUHandle)
      requires Entries() && e in clients && clients[e] > 0
      modifies `idle, `busy, `clients, Ringed()`next, Ringed()`prev, e`refs, e`deletions
      ensures Entries() && clients == old(clients)[e := old(clients)[e] - 1]
      ensures Cached() == old(Cached())
      ensures if e in Cached() && clients[e] == 0
        then idle == old(idle) + [e] && busy == Without(old(busy), e)
        else idle == old(idle) && busy == old(busy)
    {
      hide Ring, Distinct, Without, Charge, Held;
      OneIsHeld(Nodes(idle), Nodes(busy), clients, e);
      CountOf(e);
      HeldOnceLess(Nodes(idle), Nodes(busy), clients, e);
      Unref(e);
      assert forall h :: h in clients && h != e ==> old(Counted(h));
      hide LRUCache.Counts;
      SetHolders(e, clients[e] - 1);
    }

    /** Release: the caller gives one handle back. */
    method Release(e: LRUHandle)
      requires Valid() && e in clients && clients[e] > 0
      modifies `idle, `busy, `clients, Ringed()`next, Ringed()`prev, e`refs, e`deletions
      ensures Valid() && clients == old(clients)[e := old(clients)[e] - 1]
      ensures Cached() == old(Cached())
      ensures if e in Cached() && clients[e] == 0
        then idle == old(idle) + [e] && busy == Without(old(busy), e)
        else idle == old(idle) && busy == old(busy)
    {
      hide LRUCache.Entries, HandleTable.Chains, Keyed, Without;
      GiveBack(e);
    }

    /** Out of its list and out of the account. */
    method TakeOut(e: LRUHandle)
      requires Lists() && Sorted() && e in Cached() && usage == Charge(idle) + Charge(busy)
      modifies `idle, `busy, `usage, Ringed()`next, Ringed()`prev, e`inCache
      ensures Lists() && Sorted() && Cached() == old(Cached()) - {e} && !e.inCache && usage == Charge(idle) + Charge(busy)
      ensures idle == Without(old(idle), e) && busy == Without(old(busy), e)
      ensures usage == old(usage) - e.charge
    {
      hide Ring, Distinct, Without, Charge, Held;
      HeldWithout(Nodes(idle), Nodes(busy), clients, e);
      ListFacts(e);
      Unlist(e);
      e.inCache := false;
      usage := usage - e.charge;
    }

    /** FinishErase: an entry that the table has let go leaves the lists and the account; if
        nobody holds it, its deleter runs. */
    method FinishErase(e: LRUHandle)
      requires Entries() && e in Cached()
      modifies `idle, `busy, `usage, Ringed()`next, Ringed()`prev, e`refs, e`deletions, e`inCache
      ensures Entries() && Cached() == old(Cached()) - {e}
      ensures idle == Without(old(idle), e) && busy == Without(old(busy), e)
      ensures usage == old(usage) - e.charge
    {
      hide Ring, Distinct, Without, Charge, Held;
      OneIsHeld(Nodes(idle), Nodes(busy), clients, e);
      CountOf(e);
      assert forall h :: h in clients && h != e ==> Counted(h);
      hide LRUCache.Counts;
      TakeOut(e);
      Unref(e);
      assert forall h :: h in clients && h != e ==> old(Counted(h));
      Recounted(e);
    }

    // ----- the table as a map

    /** What is cached, by key. */
    ghost function Contents(): map<(Bytes, nat), LRUHandle>
      reads table
    {
      KeyMap(table.items)
    }

    /** Lookup: the entry with the key, now held once more. */
    method Lookup(key: Bytes, hash: nat) returns (e: LRUHandle?)
      requires Valid()
      modifies `idle, `busy, `clients, Ringed()`next, Ringed()`prev, Cached()`refs
      ensures Valid() && Contents() == old(Contents()) && usage == old(usage)
      ensures e == if (key, hash) in old(Contents()) then old(Contents())[(key, hash)] else null
      ensures clients == if e == null then old(clients) else old(clients)[e := old(clients)[e] + 1]
      ensures if e != null && old(clients)[e] == 0
        then idle == Without(old(idle), e) && busy == old(busy) + [e]
        else idle == old(idle) && busy == old(busy)
    {
      hide LRUCache.Entries, HandleTable.Chains, HandleTable.Valid, UniqueKeys, Without;
      TableIsKeyed();
      CachedAreKnown();
      e := table.Lookup(key, hash);
      Found(table.items, key, hash, e);
      if e != null {
        Ref(e);
      }
    }

    /** Erase: the entry with the key, if there is one, leaves the cache. */
    method Erase(key: Bytes, hash: nat) returns (ghost erased: LRUHandle?)
      requires Valid()
      modifies `idle, `busy, `usage, Ringed()`next, Ringed()`prev, Cached()`refs, Cached()`deletions, Cached()`inCache
      modifies table, table.list, Cached()`nextHash
      ensures Valid() && Contents() == old(Contents()) - {(key, hash)} && table.list == old(table.list)
      ensures erased == if (key, hash) in old(Contents()) then old(Contents())[(key, hash)] else null
      ensures if erased == null
        then idle == old(idle) && busy == old(busy)
        else erased in old(Cached()) && idle == Without(old(idle), erased) && busy == Without(old(busy), erased)
    {
      hide LRUCache.Entries, HandleTable.Chains, HandleTable.Valid, UniqueKeys, Without, Charge;
      TableIsKeyed();
      ghost var items := table.items;
      var e := RemoveFromTable(key, hash);
      erased := e;
      Found(items, key, hash, e);
      if e != null {
        FinishErase(e);
        KeyMapWithout(items, e);
      }
      TableIsKeyed();
    }

    /** The entry goes into the cache: first the lists, then the table. */
    method Cache(e: LRUHandle) returns (ghost previous: LRUHandle?)
      requires Valid() && e in clients && clients[e] == 1 && e !in Ringed()
      modifies `idle, `busy, `usage, Ringed()`next, Ringed()`prev, Cached()`refs, Cached()`deletions, Cached()`inCache
      modifies table, table.list, Cached()`nextHash, e
      ensures Valid() && (table.list == old(table.list) || fresh(table.list))
      ensures Contents() == old(Contents())[(e.key, e.hash) := e]
      ensures previous == if (e.key, e.hash) in old(Contents()) then old(Contents())[(e.key, e.hash)] else null
      ensures if previous == null
        then idle == old(idle) && busy == old(busy) + [e]
        else previous in old(Cached()) && idle == Without(old(idle), previous) && busy == Without(old(busy) + [e], previous)
      ensures e in busy && Cached() <= old(Cached()) + {e}
    {
      hide LRUCache.Entries, HandleTable.Chains, Keyed, Without, Charge;
      Admit(e);
      previous := Replace(e);
      BusyWhileHeld(e);
    }

    lemma BusyWhileHeld(e: LRUHandle)
      requires Valid() && e in clients && clients[e] > 0 && (e.key, e.hash) in Contents() && Contents()[(e.key, e.hash)] == e
      ensures e in busy
    {
      assert e in table.items;
      OneIsHeld(Nodes(idle), Nodes(busy), clients, e);
    }

    /** As long as the cache is over its capacity, the oldest idle entry goes. */
    method Shrink() returns (ghost evicted: nat)
      requires Valid()
      modifies `idle, `busy, `usage, Ringed()`next, Ringed()`prev, Cached()`refs, Cached()`deletions, Cached()`inCache
      modifies table, table.list, Cached()`nextHash
      ensures Valid() && busy == old(busy) && evicted <= |old(idle)| && idle == old(idle)[evicted..]
      ensures usage <= capacity || idle == []
      ensures evicted > 0 ==> usage + old(idle)[evicted - 1].charge > capacity
      ensures forall k :: k in Contents() ==> k in old(Contents()) && Contents()[k] == old(Contents())[k]
      ensures forall h :: h in idle || h in busy ==> Contains(h)
    {
      hide LRUCache.Entries, HandleTable.Chains, HandleTable.Valid, UniqueKeys, Charge;
      IdleShows();
      evicted := 0;
      while usage > capacity && lru.next != lru
        invariant Valid() && busy == old(busy) && evicted <= |old(idle)| && idle == old(idle)[evicted..]
        invariant lru.next == lru <==> idle == []
        invariant table.list == old(table.list) && Nodes(idle) <= old(Nodes(idle))
        invariant evicted > 0 ==> usage + old(idle)[evicted - 1].charge > capacity
        invariant forall k :: k in Contents() ==> k in old(Contents()) && Contents()[k] == old(Contents())[k]
        decreases |idle|
      {
        EvictOldest();
        IdleShows();
        evicted := evicted + 1;
      }
      AllContained();
    }

    /** The map has the entry under its key. */
    ghost predicate Contains(h: LRUHandle)
      reads table
    {
      (h.key, h.hash) in Contents() && Contents()[(h.key, h.hash)] == h
    }

    lemma AllContained()
      requires Valid()
      ensures forall h :: h in idle || h in busy ==> Contains(h)
    {
      hide LRUCache.Entries, HandleTable.Chains;
      forall h | h in Cached() ensures Contains(h) {
        assert (h.key, h.hash) in Keys(table.items);
      }
    }

    /** The list without what was replaced. */
    ghost function Kept(s: seq<LRUHandle>, previous: LRUHandle?): seq<LRUHandle> {
      if previous == null then s else Without(s, previous)
    }

    /** Insert, before anything is evicted. */
    method Enter(key: Bytes, hash: nat, charge: nat) returns (e: LRUHandle, ghost previous: LRUHandle?)
      requires Valid()
      modifies `idle, `busy, `usage, `clients, Ringed()`next, Ringed()`prev, Cached()`refs, Cached()`deletions,
        Cached()`inCache
      modifies table, table.list, Cached()`nextHash
      ensures Valid() && fresh(e) && e.Matches(key, hash) && e.charge == charge
      ensures table.list == old(table.list) || fresh(table.list)
      ensures clients == old(clients)[e := 1] && e !in old(clients) && Cached() <= old(Cached()) + {e}
      ensures Contents() == if capacity > 0 then old(Contents())[(key, hash) := e] else old(Contents())
      ensures previous == if capacity > 0 && (key, hash) in old(Contents()) then old(Contents())[(key, hash)] else null
      ensures idle == Kept(old(idle), previous)
      ensures busy == if capacity > 0 then Kept(old(busy) + [e], previous) else old(busy)
      ensures capacity > 0 ==> e in busy
    {
      hide LRUCache.Entries, HandleTable.Chains, HandleTable.Valid, UniqueKeys, Without, Charge, KeyMap;
      e := NewEntry(key, hash, charge);
      previous := null;
      if capacity > 0 {
        previous := Cache(e);
      }
    }

    /** Insert: the new entry takes the place of one with its key; then the oldest idle
        entries go until the cache fits, and no more of them.  With capacity 0 nothing is
        cached, and the caller holds the only reference. */
    method Insert(key: Bytes, hash: nat, charge: nat) returns (e: LRUHandle, ghost previous: LRUHandle?, ghost evicted: nat)
      requires Valid()
      modifies `idle, `busy, `usage, `clients, Ringed()`next, Ringed()`prev, Cached()`refs, Cached()`deletions,
        Cached()`inCache
      modifies table, table.list, Cached()`nextHash
      ensures Valid() && fresh(e) && e.Matches(key, hash) && e.charge == charge
      ensures clients == old(clients)[e := 1] && e !in old(clients)
      ensures usage <= capacity || idle == []
      ensures capacity > 0 ==> Contains(e)
      ensures forall k :: k in Contents() ==>
        (k == (key, hash) && capacity > 0) || (k in old(Contents()) && Contents()[k] == old(Contents())[k])
      ensures previous == if capacity > 0 && (key, hash) in old(Contents()) then old(Contents())[(key, hash)] else null
      ensures evicted <= |Kept(old(idle), previous)| && idle == Kept(old(idle), previous)[evicted..]
      ensures evicted > 0 ==> usage + Kept(old(idle), previous)[evicted - 1].charge > capacity
      ensures busy == if capacity > 0 then Kept(old(busy) + [e], previous) else old(busy)
    {
      hide LRUCache.Entries, HandleTable.Chains, HandleTable.Valid, UniqueKeys, LRUCache.Kept, Charge, KeyMap;
      e, previous := Enter(key, hash, charge);
      evicted := Shrink();
    }

    method InsertInTable(e: LRUHandle) returns (previous: LRUHandle?)
      requires Entries() && table.Valid() && e in Cached() && e !in table.items && table.items <= Cached()
      modifies table, table.list, Cached()`nextHash
      ensures Entries() && table.Valid() && (table.list == old(table.list) || fresh(table.list))
      ensures table.items == old(table.items) - HandleTable.Gone(previous) + {e}
      ensures previous != null ==> previous in old(table.items) && previous.Matches(e.key, e.hash)
      ensures previous == null ==> forall h :: h in old(table.items) ==> !h.Matches(e.key, e.hash)
    {
      hide Ring, Distinct, Charge, Held, CountedWith, HandleTable.Chains, Keyed;
      previous := table.Insert(e);
    }

    method RemoveFromTable(key: Bytes, hash: nat) returns (e: LRUHandle?)
      requires Entries() && table.Valid() && table.items <= Cached()
      modifies table, table.list, Cached()`nextHash
      ensures Entries() && table.Valid() && table.list == old(table.list)
      ensures table.items == old(table.items) - (if e == null then {} else {e})
      ensures e != null ==> e in old(table.items) && e.Matches(key, hash)
      ensures e == null ==> forall h :: h in old(table.items) ==> !h.Matches(key, hash)
    {
      hide Ring, Distinct, Charge, Held, CountedWith, HandleTable.Chains, Keyed;
      e := table.Remove(key, hash);
    }

    /** The oldest idle entry leaves the cache, and its deleter runs. */
    method EvictOldest()
      requires Valid() && idle != []
      modifies `idle, `busy, `usage, Ringed()`next, Ringed()`prev, Cached()`refs, Cached()`deletions, Cached()`inCache
      modifies table, table.list, Cached()`nextHash
      ensures Valid() && idle == old(idle)[1..] && busy == old(busy) && table.list == old(table.list)
      ensures usage == old(usage) - old(idle)[0].charge
      ensures Contents() == old(Contents()) - {(old(idle)[0].key, old(idle)[0].hash)}
    {
      OldestFacts();
      var e := lru.next;
      hide LRUCache.Entries, HandleTable.Chains, HandleTable.Valid, UniqueKeys, Charge;
      TableIsKeyed();
      Found(table.items, e.key, e.hash, e);
      ghost var was := idle;
      ghost var erased := Erase(e.key, e.hash);
      UsageIs();
    }

    lemma OldestFacts()
      requires Valid() && idle != []
      ensures lru.next == idle[0] && idle[0] in table.items && idle[0] !in busy
      ensures Without(idle, idle[0]) == idle[1..] && Without(busy, idle[0]) == busy
      ensures Charge(idle) == idle[0].charge + Charge(idle[1..]) && usage == Charge(idle) + Charge(busy)
    {
      RingFirst(lru, idle);
      WithoutFacts(busy, idle[0]);
    }

    lemma UsageIs()
      requires Entries()
      ensures usage == Charge(idle) + Charge(busy)
    {
    }

    /** Whether there is an idle entry, read off the links. */
    lemma IdleShows()
      requires Valid()
      ensures lru.next == lru <==> idle == []
    {
      RingFirst(lru, idle);
    }

    /** Prune: every idle entry leaves the cache. */
    method Prune()
      requires Valid()
      modifies `idle, `busy, `usage, Ringed()`next, Ringed()`prev, Cached()`refs, Cached()`deletions, Cached()`inCache
      modifies table, table.list, Cached()`nextHash
      ensures Valid() && idle == [] && busy == old(busy)
    {
      hide LRUCache.Entries, HandleTable.Chains, HandleTable.Valid, UniqueKeys, Charge;
      IdleShows();
      while lru.next != lru
        invariant Valid() && busy == old(busy) && Nodes(idle) <= old(Nodes(idle)) && table.list == old(table.list)
        invariant lru.next == lru <==> idle == []
        decreases |idle|
      {
        EvictOldest();
        IdleShows();
      }
    }

    /** The new entry, held by the caller alone. */
    method NewEntry(key: Bytes, hash: nat, charge: nat) returns (e: LRUHandle)
      requires Valid()
      modifies `clients
      ensures Valid() && fresh(e) && e.Matches(key, hash) && e.charge == charge && e !in Ringed()
      ensures clients == old(clients)[e := 1] && e !in old(clients) && e.refs == 1 && !e.inCache
    {
      hide Ring, Distinct, Charge, Held, HandleTable.Valid;
      HeldIsKnown(Nodes(idle), Nodes(busy), clients);
      e := new LRUHandle(key, hash, charge);
      HeldByInserter(Nodes(idle), Nodes(busy), clients, e);
      clients := clients[e := 1];
      forall h | h in clients ensures Counted(h) {
        assert h != e ==> old(Counted(h));
      }
    }

    /** The cache's own reference, and the end of the in-use list. */
    method Admit(e: LRUHandle)
      requires Entries() && e in clients && clients[e] == 1 && e !in Ringed()
      modifies `busy, `usage, Ringed()`next, Ringed()`prev, e`next, e`prev, e`refs, e`inCache
      ensures Entries() && busy == old(busy) + [e] && Cached() == old(Cached()) + {e} && usage == old(usage) + e.charge
    {
      hide Ring, Distinct, Charge, Held;
      ChargeAppend(busy, e);
      HeldWith(Nodes(idle), Nodes(busy), clients, e);
      Keep(e);
      hide LRUCache.Counts;
      AppendBusy(e);
      assert Nodes(busy) == Nodes(old(busy)) + {e};
      usage := usage + e.charge;
    }

    method Keep(e: LRUHandle)
      requires Counts() && e in clients && !e.inCache && clients[e] > 0
      modifies e`refs, e`inCache
      ensures Counts() && e.inCache
    {
      CountOf(e);
      assert forall h :: h in clients && h != e ==> Counted(h);
      e.refs := e.refs + 1;
      e.inCache := true;
      Recounted(e);
    }

    /** The table takes the entry; what had its key leaves the cache. */
    method Replace(e: LRUHandle) returns (ghost previous: LRUHandle?)
      requires Entries() && table.Valid() && table.items == Cached() - {e} && e in Cached() && e !in table.items
      modifies `idle, `busy, `usage, Ringed()`next, Ringed()`prev, Cached()`refs, Cached()`deletions, Cached()`inCache
      modifies table, table.list, Cached()`nextHash
      ensures Valid() && (table.list == old(table.list) || fresh(table.list))
      ensures Cached() <= old(Cached())
      ensures Contents() == old(Contents())[(e.key, e.hash) := e]
      ensures previous == if (e.key, e.hash) in old(Contents()) then old(Contents())[(e.key, e.hash)] else null
      ensures if previous == null
        then idle == old(idle) && busy == old(busy)
        else previous in old(Cached()) && idle == Without(old(idle), previous) && busy == Without(old(busy), previous)
    {
      hide LRUCache.Entries, HandleTable.Chains, HandleTable.Valid, UniqueKeys, Without, Charge;
      TableIsKeyed();
      ghost var items := table.items;
      var p := InsertInTable(e);
      TableIsKeyed();
      previous := p;
      Found(items, e.key, e.hash, p);
      KeyMapWith(items, HandleTable.Gone(p), e);
      if p != null {
        FinishErase(p);
      }
    }

    /** The deleter of an entry has run exactly when neither a caller nor the cache holds it,
        and never more than once. */
    lemma DeletersRunOnce(h: LRUHandle)
      requires Valid() && h in clients
      ensures h.deletions == if clients[h] == 0 && h !in Cached() then 1 else 0
    {
      assert Counted(h);
    }

    lemma CachedAreKnown()
      requires Entries()
      ensures Cached() <= clients.Keys
    {
    }

    lemma TableIsKeyed()
      requires table.Valid()
      ensures UniqueKeys(table.items)
    {
    }
  }

  /** Cached entries that nobody else holds are idle, the others busy. */
  ghost predicate Held(idle: set<LRUHandle>, busy: set<LRUHandle>, clients: map<LRUHandle, nat>) {
    && idle + busy <= clients.Keys
    && (forall h :: h in idle ==> clients[h] == 0)
    && (forall h :: h in busy ==> clients[h] > 0)
  }

  lemma OneIsHeld(idle: set<LRUHandle>, busy: set<LRUHandle>, clients: map<LRUHandle, nat>, e: LRUHandle)
    requires Held(idle, busy, clients)
    ensures e in idle + busy ==> e in clients && (e in idle <==> clients[e] == 0) && (e in busy <==> clients[e] > 0)
  {
  }

  lemma HeldOnceMore(idle: set<LRUHandle>, busy: set<LRUHandle>, clients: map<LRUHandle, nat>, e: LRUHandle)
    requires Held(idle, busy, clients) && e in idle + busy
    ensures if e in idle
      then Held(idle - {e}, busy + {e}, clients[e := clients[e] + 1])
      else Held(idle, busy, clients[e := clients[e] + 1])
  {
  }

  lemma HeldOnceLess(idle: set<LRUHandle>, busy: set<LRUHandle>, clients: map<LRUHandle, nat>, e: LRUHandle)
    requires Held(idle, busy, clients) && e in clients && clients[e] > 0
    ensures if e in busy && clients[e] == 1
      then Held(idle + {e}, busy - {e}, clients[e := clients[e] - 1])
      else Held(idle, busy, clients[e := clients[e] - 1])
  {
  }

  lemma HeldIsKnown(idle: set<LRUHandle>, busy: set<LRUHandle>, clients: map<LRUHandle, nat>)
    requires Held(idle, busy, clients)
    ensures idle + busy <= clients.Keys
  {
  }

  lemma HeldWith(idle: set<LRUHandle>, busy: set<LRUHandle>, clients: map<LRUHandle, nat>, e: LRUHandle)
    requires Held(idle, busy, clients) && e in clients && clients[e] > 0
    ensures Held(idle, busy + {e}, clients)
  {
  }

  lemma HeldWithout(idle: set<LRUHandle>, busy: set<LRUHandle>, clients: map<LRUHandle, nat>, e: LRUHandle)
    requires Held(idle, busy, clients)
    ensures Held(idle - {e}, busy - {e}, clients)
  {
  }

  lemma HeldByInserter(idle: set<LRUHandle>, busy: set<LRUHandle>, clients: map<LRUHandle, nat>, e: LRUHandle)
    requires Held(idle, busy, clients) && e !in clients
    ensures Held(idle, busy, clients[e := 1]) && Held(idle, busy + {e}, clients[e := 1])
  {
  }

  ghost function Keys(items: set<LRUHandle>): set<(Bytes, nat)> {
    set h | h in items :: (h.key, h.hash)
  }

  ghost function EntryFor(items: set<LRUHandle>, k: (Bytes, nat)): (e: LRUHandle)
    requires k in Keys(items)
    ensures e in items && e.key == k.0 && e.hash == k.1
  {
    var e :| e in items && e.key == k.0 && e.hash == k.1;
    e
  }

  ghost function KeyMap(items: set<LRUHandle>): map<(Bytes, nat), LRUHandle> {
    map k | k in Keys(items) :: EntryFor(items, k)
  }

  lemma KeyMapWithout(items: set<LRUHandle>, e: LRUHandle)
    requires UniqueKeys(items) && e in items
    ensures UniqueKeys(items - {e}) && KeyMap(items - {e}) == KeyMap(items) - {(e.key, e.hash)}
  {
    var m, n := KeyMap(items) - {(e.key, e.hash)}, KeyMap(items - {e});
    forall k ensures k in m <==> k in n {
      if k in m {
        var h := EntryFor(items, k);
        assert h in items - {e} && (h.key, h.hash) == k;
      }
    }
  }

  lemma KeyMapWith(items: set<LRUHandle>, gone: set<LRUHandle>, e: LRUHandle)
    requires UniqueKeys(items) && gone <= items && UniqueKeys(items - gone + {e})
    requires forall h :: h in gone ==> h.Matches(e.key, e.hash)
    requires forall h :: h in items && h.Matches(e.key, e.hash) ==> h in gone
    ensures KeyMap(items - gone + {e}) == KeyMap(items)[(e.key, e.hash) := e]
  {
    var m, n := KeyMap(items)[(e.key, e.hash) := e], KeyMap(items - gone + {e});
    assert (e.key, e.hash) in Keys(items - gone + {e});
    forall k ensures k in m <==> k in n {
      if k in m && k != (e.key, e.hash) {
        var h := EntryFor(items, k);
        assert h in items - gone && (h.key, h.hash) == k;
      }
    }
  }

  /** An entry that matches is the one the map has under that key. */
  lemma Found(items: set<LRUHandle>, key: Bytes, hash: nat, e: LRUHandle?)
    requires UniqueKeys(items)
    requires e != null ==> e in items && e.Matches(key, hash)
    requires e == null ==> forall h :: h in items ==> !h.Matches(key, hash)
    ensures e == if (key, hash) in KeyMap(items) then KeyMap(items)[(key, hash)] else null
  {
    if e != null {
      assert (e.key, e.hash) in Keys(items);
    }
  }
}
