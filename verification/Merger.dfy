/** Merging the iterators of memtables and files into one (table/merger.cc). */
module Merger {
  import opened Wrappers
  import opened DbFormat
  import opened Tables
  import opened Cursors

  datatype Direction = Forward | Reverse

  /** Index of an entry of a sorted run. */
  ghost function Place(all: seq<Entry>, e: Entry): (i: nat)
    requires e in all
    ensures i < |all| && all[i] == e
  {
    var i :| 0 <= i < |all| && all[i] == e;
    i
  }

  lemma PlaceOrder(all: seq<Entry>, d: Entry, e: Entry)
    requires Sorted(all) && d in all && e in all
    ensures Less(d.key, e.key) <==> Place(all, d) < Place(all, e)
    ensures d == e <==> Place(all, d) == Place(all, e)
  {
    LessIsTotal(d.key, e.key, d.key);
  }

  /** `es` holds entries of `all` only. */
  ghost predicate Part(es: seq<Entry>, all: seq<Entry>) {
    Sorted(es) && Sorted(all) && forall j :: 0 <= j < |es| ==> es[j] in all
  }

  lemma PartOrder(es: seq<Entry>, all: seq<Entry>)
    requires Part(es, all)
    ensures forall i, j :: 0 <= i < j < |es| ==> Place(all, es[i]) < Place(all, es[j])
  {
    forall i, j | 0 <= i < j < |es|
      ensures Place(all, es[i]) < Place(all, es[j])
    {
      PlaceOrder(all, es[i], es[j]);
    }
  }

  /** A child stands at its first entry that is not among the first `m` of all. */
  ghost predicate AtOrAfterPlace(es: seq<Entry>, pos: nat, all: seq<Entry>, m: nat)
    requires Part(es, all)
  {
    && pos <= |es|
    && (forall j :: 0 <= j < pos ==> Place(all, es[j]) < m)
    && (forall j :: pos <= j < |es| ==> m <= Place(all, es[j]))
  }

  /** A child stands at its last entry among the first `m` of all, or has run off. */
  ghost predicate BeforePlace(es: seq<Entry>, pos: nat, all: seq<Entry>, m: nat)
    requires Part(es, all)
  {
    && (pos < |es| ==> Place(all, es[pos]) < m)
    && (forall j :: 0 <= j < |es| && (pos < |es| ==> pos < j) ==> m <= Place(all, es[j]))
  }

  ghost predicate HeldBySome(children: seq<Cursor>, e: Entry) {
    exists i :: 0 <= i < |children| && e in children[i].entries
  }

  class MergingIterator {
    const children: seq<Cursor>
    var current: Option<nat>
    var direction: Direction
    /** The sorted union, and the place in it. */
    ghost const all: seq<Entry>
    ghost var at: nat

    /** Every entry is in exactly one child. */
    ghost predicate Wired() {
      && Sorted(all)
      && (forall i, j :: 0 <= i < j < |children| ==> children[i] != children[j])
      && (forall i :: 0 <= i < |children| ==> Part(children[i].entries, all))
      && (forall m :: 0 <= m < |all| ==> HeldBySome(children, all[m]))
      && (forall i, j, e ::
        0 <= i < |children| && 0 <= j < |children| && e in children[i].entries && e in children[j].entries ==> i == j)
    }

    ghost predicate Idle()
      reads children
    {
      Wired() && forall i :: 0 <= i < |children| ==> children[i].Ok()
    }

    ghost predicate Ok()
      reads this, children
    {
      && Idle()
      && (current.Some? ==>
        && at < |all| && current.value < |children|
        && children[current.value].AtEntry() && children[current.value].Current() == all[at]
        && forall i :: 0 <= i < |children| && i != current.value ==> Placed(i))
    }

    ghost predicate Placed(i: nat)
      requires Wired() && i < |children|
      reads this, children
    {
      if direction == Forward then AtOrAfterPlace(children[i].entries, children[i].pos, all, at)
      else BeforePlace(children[i].entries, children[i].pos, all, at)
    }

    /** The iterator stands at entry `k` of the union, or is not valid if there is none. */
    ghost predicate StandsAt(k: int)
      reads this, children
    {
      && Ok()
      && (current.Some? <==> 0 <= k < |all|)
      && (current.Some? ==> at == k)
    }

    function Current(): (e: Entry)
      requires Ok() && current.Some?
      reads this, children
      ensures e == all[at]
    {
      children[current.value].Current()
    }

    constructor (children: seq<Cursor>, ghost all: seq<Entry>)
      requires Sorted(all)
      requires forall i, j :: 0 <= i < j < |children| ==> children[i] != children[j]
      requires forall i :: 0 <= i < |children| ==> children[i].Ok() && Part(children[i].entries, all)
      requires forall m :: 0 <= m < |all| ==> HeldBySome(children, all[m])
      requires forall i, j, e ::
        0 <= i < |children| && 0 <= j < |children| && e in children[i].entries && e in children[j].entries ==> i == j
      ensures Ok() && current.None? && this.children == children && this.all == all
    {
      this.children := children;
      this.all := all;
      current, direction, at := None, Forward, 0;
    }

    ghost predicate IsSmallest(r: Option<nat>)
      reads children
    {
      && (r.None? ==> forall k :: 0 <= k < |children| ==> !children[k].AtEntry())
      && (r.Some? ==>
        && r.value < |children| && children[r.value].AtEntry()
        && forall k :: 0 <= k < |children| && children[k].AtEntry() ==>
             LessEq(children[r.value].Current().key, children[k].Current().key))
    }

    method SmallestChild() returns (smallest: Option<nat>)
      ensures IsSmallest(smallest)
    {
      smallest := None;
      for i := 0 to |children|
        invariant smallest.None? ==> forall k :: 0 <= k < i ==> !children[k].AtEntry()
        invariant smallest.Some? ==> smallest.value < i && children[smallest.value].AtEntry()
        invariant smallest.Some? ==> forall k :: 0 <= k < i && children[k].AtEntry() ==>
          LessEq(children[smallest.value].Current().key, children[k].Current().key)
      {
        if children[i].AtEntry() {
          if smallest.None? || Less(children[i].Current().key, children[smallest.value].Current().key) {
            smallest := Some(i);
          }
        }
      }
    }

    /** All children stand at their first entry from place `m` on. */
    ghost predicate AllAtOrAfter(m: nat)
      requires Wired()
      reads children
    {
      forall i :: 0 <= i < |children| ==> AtOrAfterPlace(children[i].entries, children[i].pos, all, m)
    }

    method FindSmallest(ghost m: nat)
      requires Idle() && direction == Forward && m <= |all| && AllAtOrAfter(m)
      modifies this`current, this`at
      ensures StandsAt(m)
    {
      hide AtOrAfterPlace, BeforePlace, HeldBySome;
      var smallest := SmallestChild();
      SmallestIsNext(smallest, m);
      current := smallest;
      at := m;
    }

    lemma SmallestIsNext(r: Option<nat>, m: nat)
      requires Idle() && m <= |all| && AllAtOrAfter(m) && IsSmallest(r)
      ensures r.Some? <==> m < |all|
      ensures r.Some? ==> children[r.value].Current() == all[m]
    {
      if m < |all| {
        assert HeldBySome(children, all[m]);
        var k :| 0 <= k < |children| && all[m] in children[k].entries;
        HolderStandsAt(children[k].entries, children[k].pos, m);
        var c := children[r.value];
        assert c.Current() in c.entries;
        PlaceOrder(all, c.Current(), all[m]);
        PlaceOfIndex(m);
      } else {
        NoneAtOrAfterEnd(m);
      }
    }

    lemma NoneAtOrAfterEnd(m: nat)
      requires Wired() && m == |all| && AllAtOrAfter(m)
      ensures forall i :: 0 <= i < |children| ==> !children[i].AtEntry()
    {
      forall i | 0 <= i < |children|
        ensures children[i].pos >= |children[i].entries|
      {
        var es, pos := children[i].entries, children[i].pos;
        assert pos < |es| ==> m <= Place(all, es[pos]);
      }
    }

    lemma PlaceOfIndex(m: nat)
      requires Sorted(all) && m < |all|
      ensures Place(all, all[m]) == m
    {
    }

    lemma HolderStandsAt(es: seq<Entry>, pos: nat, m: nat)
      requires Part(es, all) && m < |all| && AtOrAfterPlace(es, pos, all, m) && all[m] in es
      ensures pos < |es| && es[pos] == all[m]
    {
      var j :| 0 <= j < |es| && es[j] == all[m];
      PlaceOrder(all, all[m], all[Place(all, all[m])]);
      PartOrder(es, all);
    }

    ghost predicate IsLargest(r: Option<nat>)
      reads children
    {
      && (r.None? ==> forall k :: 0 <= k < |children| ==> !children[k].AtEntry())
      && (r.Some? ==>
        && r.value < |children| && children[r.value].AtEntry()
        && forall k :: 0 <= k < |children| && children[k].AtEntry() ==>
             LessEq(children[k].Current().key, children[r.value].Current().key))
    }

    method LargestChild() returns (largest: Option<nat>)
      ensures IsLargest(largest)
    {
      largest := None;
      var i: nat := |children|;
      while i > 0
        invariant i <= |children|
        invariant largest.None? ==> forall k :: i <= k < |children| ==> !children[k].AtEntry()
        invariant largest.Some? ==> largest.value < |children| && children[largest.value].AtEntry()
        invariant largest.Some? ==> forall k :: i <= k < |children| && children[k].AtEntry() ==>
          LessEq(children[k].Current().key, children[largest.value].Current().key)
      {
        i := i - 1;
        if children[i].AtEntry() {
          if largest.None? || Less(children[largest.value].Current().key, children[i].Current().key) {
            largest := Some(i);
          }
        }
      }
    }

    /** All children stand at their last entry before place `m`, or have run off. */
    ghost predicate AllBefore(m: nat)
      requires Wired()
      reads children
    {
      forall i :: 0 <= i < |children| ==> BeforePlace(children[i].entries, children[i].pos, all, m)
    }

    method FindLargest(ghost m: nat)
      requires Idle() && direction == Reverse && m <= |all| && AllBefore(m)
      modifies this`current, this`at
      ensures StandsAt(m - 1)
    {
      hide BeforePlace, AtOrAfterPlace;
      var largest := LargestChild();
      LargestIsPrevious(largest, m);
      if m > 0 {
        OthersBefore(m - 1, largest.value);
        at := m - 1;
      }
      current := largest;
    }

    lemma LargestIsPrevious(r: Option<nat>, m: nat)
      requires Idle() && m <= |all| && AllBefore(m) && IsLargest(r)
      ensures r.Some? <==> 0 < m
      ensures r.Some? ==> children[r.value].Current() == all[m - 1]
    {
      if m > 0 {
        assert HeldBySome(children, all[m - 1]);
        var k :| 0 <= k < |children| && all[m - 1] in children[k].entries;
        HolderStandsBefore(children[k].entries, children[k].pos, m);
        var c := children[r.value];
        assert c.Current() in c.entries;
        assert Place(all, c.Current()) < m;
        PlaceOfIndex(m - 1);
        LargestPlace(children[k].Current(), c.Current(), m);
      } else {
        NoneBeforeStart(m);
      }
    }

    lemma NoneBelowZero(es: seq<Entry>, pos: nat)
      requires Part(es, all) && BeforePlace(es, pos, all, 0)
      ensures pos >= |es|
    {
    }

    lemma NoneBeforeStart(m: nat)
      requires Wired() && m == 0 && AllBefore(m)
      ensures forall i :: 0 <= i < |children| ==> !children[i].AtEntry()
    {
      forall i | 0 <= i < |children|
        ensures children[i].pos >= |children[i].entries|
      {
        NoneBelowZero(children[i].entries, children[i].pos);
      }
    }

    lemma LargestPlace(d: Entry, e: Entry, m: nat)
      requires Sorted(all) && 0 < m <= |all| && d == all[m - 1] && e in all && LessEq(d.key, e.key) && Place(all, e) < m
      ensures d == e
    {
      PlaceOfIndex(m - 1);
      PlaceOrder(all, d, e);
      PlaceOrder(all, e, d);
    }

    lemma HolderStandsBefore(es: seq<Entry>, pos: nat, m: nat)
      requires Part(es, all) && 0 < m <= |all| && BeforePlace(es, pos, all, m) && all[m - 1] in es
      ensures pos < |es| && es[pos] == all[m - 1]
    {
      var j :| 0 <= j < |es| && es[j] == all[m - 1];
      PlaceOrder(all, all[m - 1], all[Place(all, all[m - 1])]);
      PartOrder(es, all);
    }

    /** Children other than the one at entry `m` that stand before place `m + 1` stand
        before `m`. */
    lemma OthersBefore(m: nat, c: nat)
      requires Idle() && m < |all| && AllBefore(m + 1)
      requires c < |children| && children[c].AtEntry() && children[c].Current() == all[m]
      ensures forall i :: 0 <= i < |children| && i != c ==> BeforePlace(children[i].entries, children[i].pos, all, m)
    {
      forall i, j | 0 <= i < |children| && i != c && 0 <= j < |children[i].entries|
        ensures Place(all, children[i].entries[j]) != m
      {
        HeldOnce(c, i, m);
      }
    }

    method SeekToFirst()
      requires Ok()
      modifies this, children
      ensures StandsAt(0)
    {
      for i := 0 to |children|
        invariant Idle()
        invariant forall k :: 0 <= k < i ==> children[k].pos == 0
      {
        children[i].SeekToFirst();
      }
      direction := Forward;
      FindSmallest(0);
    }

    method SeekToLast()
      requires Ok()
      modifies this, children
      ensures StandsAt(|all| - 1)
    {
      for i := 0 to |children|
        invariant Idle()
        invariant forall k :: 0 <= k < i ==> BeforePlace(children[k].entries, children[k].pos, all, |all|)
      {
        children[i].SeekToLast();
      }
      direction := Reverse;
      FindLargest(|all|);
    }

    method Seek(target: InternalKey)
      requires Ok()
      modifies this, children
      ensures StandsAt(SeekIndex(all, target))
    {
      ghost var m := SeekIndex(all, target);
      for i := 0 to |children|
        invariant Idle()
        invariant forall k :: 0 <= k < i ==> AtOrAfterPlace(children[k].entries, children[k].pos, all, m)
      {
        children[i].Seek(target);
        SeekFindsPlace(children[i].entries, target);
      }
      direction := Forward;
      FindSmallest(m);
    }

    lemma SeekFindsPlace(es: seq<Entry>, target: InternalKey)
      requires Part(es, all)
      ensures AtOrAfterPlace(es, SeekIndex(es, target), all, SeekIndex(all, target))
    {
      var p, m := SeekIndex(es, target), SeekIndex(all, target);
      forall j | 0 <= j < |es|
        ensures Place(all, es[j]) < m <==> j < p
      {
        var k := Place(all, es[j]);
        assert p <= j ==> j == p || Less(es[p].key, es[j].key);
        assert m <= k ==> k == m || Less(all[m].key, all[k].key);
      }
    }

    /** Put one child just after the current entry. */
    method TurnForward(i: nat, key: InternalKey)
      requires Wired() && at < |all| && key == all[at].key && i < |children| && children[i].Ok()
      modifies children[i]
      ensures children[i].Ok() && AtOrAfterPlace(children[i].entries, children[i].pos, all, at + 1)
    {
      var child := children[i];
      child.Seek(key);
      SeekFindsPlace(child.entries, all[at].key);
      SeekOwnKey(at);
      PastPlace(child.entries, child.pos, at);
      if child.AtEntry() && child.Current().key == key {
        child.Next();
      }
    }

    /** From the first entry at or after a place to the first one after it. */
    lemma PastPlace(es: seq<Entry>, pos: nat, m: nat)
      requires Part(es, all) && m < |all| && AtOrAfterPlace(es, pos, all, m)
      ensures pos < |es| && es[pos].key == all[m].key ==> AtOrAfterPlace(es, pos + 1, all, m + 1)
      ensures !(pos < |es| && es[pos].key == all[m].key) ==> AtOrAfterPlace(es, pos, all, m + 1)
    {
      PlaceOfIndex(m);
      PartOrder(es, all);
      if pos < |es| {
        PlaceOrder(all, es[pos], all[m]);
        PlaceOrder(all, all[m], es[pos]);
      }
    }

    /** Seeking to the key of an entry of the union finds that entry. */
    lemma SeekOwnKey(m: nat)
      requires Sorted(all) && m < |all|
      ensures SeekIndex(all, all[m].key) == m
    {
      var k := SeekIndex(all, all[m].key);
      assert k < m ==> Less(all[k].key, all[m].key);
    }

    /** Put one child that does not hold the current entry just before it. */
    method TurnBack(i: nat, key: InternalKey)
      requires Wired() && at < |all| && key == all[at].key && i < |children| && children[i].Ok()
      requires all[at] !in children[i].entries
      modifies children[i]
      ensures children[i].Ok() && BeforePlace(children[i].entries, children[i].pos, all, at)
    {
      var child := children[i];
      child.Seek(key);
      SeekFindsPlace(child.entries, all[at].key);
      SeekOwnKey(at);
      if child.AtEntry() {
        child.Prev();
      } else {
        child.SeekToLast();
      }
    }

    method Next()
      requires Ok() && current.Some?
      modifies this, children
      ensures StandsAt(old(at) + 1)
    {
      hide AtOrAfterPlace, BeforePlace;
      var c := current.value;
      if direction != Forward {
        var key := Current().key;
        for i := 0 to |children|
          invariant Idle() && unchanged(this) && children[c].pos == old(children[c].pos)
          invariant forall k :: 0 <= k < i && k != c ==> AtOrAfterPlace(children[k].entries, children[k].pos, all, at + 1)
        {
          if i != c {
            TurnForward(i, key);
          }
        }
        direction := Forward;
      } else {
        OthersAfter(c);
      }
      AfterCurrent(c);
      children[c].Next();
      FindSmallest(at + 1);
    }

    method Prev()
      requires Ok() && current.Some?
      modifies this, children
      ensures StandsAt(old(at) - 1)
    {
      hide AtOrAfterPlace, BeforePlace;
      var c := current.value;
      if direction != Reverse {
        var key := Current().key;
        for i := 0 to |children|
          invariant Idle() && unchanged(this) && children[c].pos == old(children[c].pos)
          invariant forall k :: 0 <= k < i && k != c ==> BeforePlace(children[k].entries, children[k].pos, all, at)
        {
          if i != c {
            HeldOnce(c, i, at);
            TurnBack(i, key);
          }
        }
        direction := Reverse;
      } else {
        forall i | 0 <= i < |children| && i != c
          ensures BeforePlace(children[i].entries, children[i].pos, all, at)
        {
          assert Placed(i);
        }
      }
      BeforeCurrent(c);
      children[c].Prev();
      FindLargest(at);
    }

    /** The current entry is in no other child. */
    lemma HeldOnce(c: nat, i: nat, m: nat)
      requires Wired() && c < |children| && i < |children| && i != c && m < |all|
      requires children[c].AtEntry() && children[c].Current() == all[m]
      ensures all[m] !in children[i].entries
    {
      assert children[c].Current() in children[c].entries;
    }

    /** Moving forward, the other children stand past the current entry already. */
    lemma OthersAfter(c: nat)
      requires Ok() && direction == Forward && current == Some(c)
      ensures forall i :: 0 <= i < |children| && i != c ==> AtOrAfterPlace(children[i].entries, children[i].pos, all, at + 1)
    {
      forall i | 0 <= i < |children| && i != c
        ensures AtOrAfterPlace(children[i].entries, children[i].pos, all, at + 1)
      {
        assert Placed(i);
        HeldOnce(c, i, at);
        PastPlace(children[i].entries, children[i].pos, at);
        KeyIdentifies(children[i].entries, children[i].pos, at);
      }
    }

    lemma KeyIdentifies(es: seq<Entry>, pos: nat, m: nat)
      requires Part(es, all) && m < |all| && all[m] !in es
      ensures pos < |es| ==> es[pos].key != all[m].key
    {
      if pos < |es| {
        PlaceOrder(all, es[pos], all[m]);
        PlaceOrder(all, all[m], es[pos]);
      }
    }

    /** Once the current child moves on, it stands past the current entry too. */
    lemma AfterCurrent(c: nat)
      requires Idle() && c < |children| && at < |all| && children[c].AtEntry() && children[c].Current() == all[at]
      ensures AtOrAfterPlace(children[c].entries, children[c].pos + 1, all, at + 1)
    {
      PlaceOfIndex(at);
      PartOrder(children[c].entries, all);
    }

    lemma BeforeCurrent(c: nat)
      requires Idle() && c < |children| && at < |all| && children[c].AtEntry() && children[c].Current() == all[at]
      ensures var es, pos := children[c].entries, children[c].pos;
        BeforePlace(es, if pos == 0 then |es| else pos - 1, all, at)
    {
      PlaceOfIndex(at);
      PartOrder(children[c].entries, all);
    }
  }
}
