/** Circular doubly linked lists with a dummy head (LRU_Remove and LRU_Append in
    util/cache.cc). */
module LruLists {
  import opened HandleTables

  /** Neighbours in both directions. */
  ghost predicate Joined(a: LRUHandle, b: LRUHandle)
    reads a`next, b`prev
  {
    a.next == b && b.prev == a
  }

  /** The head, the list, the head again. */
  ghost function Around(head: LRUHandle, s: seq<LRUHandle>): seq<LRUHandle> {
    [head] + s + [head]
  }

  ghost predicate Ring(head: LRUHandle, s: seq<LRUHandle>)
    reads head`next, head`prev, Nodes(s)`next, Nodes(s)`prev
  {
    forall i :: 0 <= i <= |s| ==> JoinedAt(head, s, i)
  }

  ghost predicate JoinedAt(head: LRUHandle, s: seq<LRUHandle>, i: nat)
    requires i <= |s|
    reads head`next, head`prev, Nodes(s)`next, Nodes(s)`prev
  {
    Joined(if i == 0 then head else s[i - 1], if i == |s| then head else s[i])
  }

  function Without(s: seq<LRUHandle>, e: LRUHandle): seq<LRUHandle> {
    if s == [] then [] else if s[0] == e then s[1..] else [s[0]] + Without(s[1..], e)
  }

  function Charge(s: seq<LRUHandle>): nat {
    if s == [] then 0 else s[0].charge + Charge(s[1..])
  }

  lemma {:induction false} WithoutAt(s: seq<LRUHandle>, k: nat)
    requires Distinct(s) && k < |s|
    ensures Without(s, s[k]) == s[..k] + s[k + 1..]
    decreases k
  {
    if k > 0 {
      assert Distinct(s[1..]);
      WithoutAt(s[1..], k - 1);
      assert s[..k] == [s[0]] + s[1..][..k - 1];
      assert s[1..][k..] == s[k + 1..];
    }
  }

  lemma {:induction false} WithoutFacts(s: seq<LRUHandle>, e: LRUHandle)
    requires Distinct(s)
    ensures var w := Without(s, e);
      && Distinct(w) && Nodes(w) == Nodes(s) - {e}
      && (e in s ==> Charge(w) + e.charge == Charge(s) && |w| + 1 == |s|)
      && (e !in s ==> w == s)
  {
    if s != [] {
      assert Distinct(s[1..]) && s[0] !in s[1..];
      WithoutFacts(s[1..], e);
      assert Nodes(s) == {s[0]} + Nodes(s[1..]);
      if s[0] != e {
        var w := Without(s[1..], e);
        assert s[0] !in Nodes(w);
        assert Without(s, e) == [s[0]] + w;
        assert ([s[0]] + w)[1..] == w;
        assert Nodes([s[0]] + w) == {s[0]} + Nodes(w);
      } else {
        assert s[0] !in Nodes(s[1..]);
      }
    }
  }

  lemma {:induction false} ChargeAppend(s: seq<LRUHandle>, e: LRUHandle)
    ensures Charge(s + [e]) == Charge(s) + e.charge
  {
    if s == [] {
      assert s + [e] == [e];
    } else {
      assert (s + [e])[1..] == s[1..] + [e];
      ChargeAppend(s[1..], e);
    }
  }

  /** LRU_Remove: its neighbours become neighbours. */
  method Remove(e: LRUHandle, ghost head: LRUHandle, ghost s: seq<LRUHandle>)
    requires Ring(head, s) && Distinct(s) && head !in s && e in s && e.next != null && e.prev != null
    modifies head`next, head`prev, Nodes(s)`next, Nodes(s)`prev
    ensures Ring(head, Without(s, e))
  {
    ghost var k: nat :| k < |s| && s[k] == e;
    assert JoinedAt(head, s, k) && JoinedAt(head, s, k + 1);
    WithoutAt(s, k);
    e.next.prev := e.prev;
    e.prev.next := e.next;
    ghost var w := s[..k] + s[k + 1..];
    forall i | 0 <= i <= |w| ensures JoinedAt(head, w, i) {
      if i < k {
        assert old(JoinedAt(head, s, i));
        assert w[i] == s[i] && (i > 0 ==> w[i - 1] == s[i - 1] && s[i - 1] != s[k]);
        assert i > 0 && k > 0 ==> s[i - 1] != s[k - 1];
      } else if i > k {
        assert old(JoinedAt(head, s, i + 1));
        assert w[i - 1] == s[i] && (i < |w| ==> w[i] == s[i + 1]);
        assert s[i] != s[k] && (i < |w| && k + 1 < |s| ==> s[i + 1] != s[k + 1]);
      }
    }
  }

  /** LRU_Append: the newest entry goes just before the head. */
  method Append(head: LRUHandle, e: LRUHandle, ghost s: seq<LRUHandle>)
    requires Ring(head, s) && Distinct(s) && head !in s && e !in s && e != head && head.prev != null
    modifies e`next, e`prev, head`prev, head`next, Nodes(s)`next
    ensures Ring(head, s + [e])
  {
    assert JoinedAt(head, s, |s|);
    e.next := head;
    e.prev := head.prev;
    e.prev.next := e;
    e.next.prev := e;
    forall i | 0 <= i <= |s + [e]| ensures JoinedAt(head, s + [e], i) {
      if i < |s| {
        assert old(JoinedAt(head, s, i));
      }
    }
  }

  lemma RingHasLinks(head: LRUHandle, s: seq<LRUHandle>, e: LRUHandle)
    requires Ring(head, s) && (e in s || e == head)
    ensures e.next != null && e.prev != null
  {
    if e in s {
      var k: nat :| k < |s| && s[k] == e;
      assert JoinedAt(head, s, k) && JoinedAt(head, s, k + 1);
    } else {
      assert JoinedAt(head, s, 0) && JoinedAt(head, s, |s|);
    }
  }

  /** The oldest entry follows the head; an empty list leads back to it. */
  lemma RingFirst(head: LRUHandle, s: seq<LRUHandle>)
    requires Ring(head, s) && head !in s
    ensures head.next == (if s == [] then head else s[0]) && (head.next == head <==> s == [])
  {
    assert JoinedAt(head, s, 0);
  }
}
