/** The skip list of the memtable (db/skiplist.h): one writer, readers that take no lock. */
module SkipLists {
  import opened Wrappers
  import opened DbFormat

  const MAX_HEIGHT: nat := 12

  class Node {
    const key: InternalKey
    /** One pointer per level of the node. */
    var next: seq<Node?>

    constructor (key: InternalKey, height: nat)
      ensures this.key == key && |next| == height && forall i :: 0 <= i < height ==> next[i] == null
    {
      this.key := key;
      next := seq(height, _ => null);
    }
  }

  ghost function Successor(p: seq<Node>, k: nat): Node?
    requires k < |p|
  {
    if k + 1 < |p| then p[k + 1] else null
  }

  /** The nodes of a level, from the head on; `key` orders all but the head. */
  ghost predicate KeysAscend(p: seq<Node>) {
    forall i, j :: 0 < i < j < |p| ==> Less(p[i].key, p[j].key)
  }

  /** The first `k` nodes after the head come before the key, the others do not. */
  ghost predicate Splits(p: seq<Node>, k: nat, key: InternalKey) {
    && k < |p|
    && (forall j :: 0 < j <= k ==> Less(p[j].key, key))
    && (forall j :: k < j < |p| ==> !Less(p[j].key, key))
  }

  ghost function KeysOf(p: seq<Node>): set<InternalKey> {
    set i | 0 < i < |p| :: p[i].key
  }

  /** `r` is the least of the keys at or after `target`. */
  ghost predicate IsCeiling(keys: set<InternalKey>, target: InternalKey, r: Option<InternalKey>) {
    match r
    case None => forall k :: k in keys ==> Less(k, target)
    case Some(c) => c in keys && !Less(c, target) && forall k :: k in keys && !Less(k, target) ==> LessEq(c, k)
  }

  /** Every level is sorted, starts at the head, and visits only nodes of the levels below. */
  ghost predicate ShapeOf(path: seq<seq<Node>>, head: Node, maxHeight: nat, repr: set<Node>) {
    && |path| == MAX_HEIGHT && 0 < maxHeight <= MAX_HEIGHT && head in repr
    && (forall l :: 0 <= l < MAX_HEIGHT ==> IsLevel(path[l], head, repr))
    && (forall l, m :: 0 <= l < m < MAX_HEIGHT ==> Below(path[m], path[l]))
    && (forall l :: maxHeight <= l < MAX_HEIGHT ==> path[l] == [head])
  }

  ghost predicate IsLevel(p: seq<Node>, head: Node, repr: set<Node>) {
    && p != [] && p[0] == head && KeysAscend(p)
    && (forall k :: 0 <= k < |p| ==> p[k] in repr)
    && (forall k :: 0 < k < |p| ==> p[k] != head)
  }

  /** The nodes of `q` are nodes of `p`. */
  ghost predicate Below(q: seq<Node>, p: seq<Node>) {
    forall x :: x in q ==> x in p
  }

  function KeyOf(n: Node?): Option<InternalKey> {
    if n == null then None else Some(n.key)
  }

  class SkipList {
    const head: Node
    var maxHeight: nat
    /** Per level, the nodes that its pointers lead through, starting with the head. */
    ghost var path: seq<seq<Node>>
    ghost var repr: set<Node>

    ghost predicate Shape()
      reads this
    {
      ShapeOf(path, head, maxHeight, repr)
    }

    ghost predicate Linked(l: nat)
      requires Shape() && l < MAX_HEIGHT
      reads this, repr
    {
      forall k :: 0 <= k < |path[l]| ==> l < |path[l][k].next| && path[l][k].next[l] == Successor(path[l], k)
    }

    /** The pointers of every level lead through its nodes. */
    ghost predicate Ok()
      reads this, repr
    {
      Shape() && forall l :: 0 <= l < MAX_HEIGHT ==> Linked(l)
    }

    ghost function Keys(): set<InternalKey>
      requires Shape()
      reads this
    {
      KeysOf(path[0])
    }

    constructor ()
      ensures Ok() && Keys() == {} && fresh(repr) && maxHeight == 1 && |head.next| == 12
    {
      var h := new Node(InternalKey(0.0, 0, Deletion), MAX_HEIGHT);
      head := h;
      maxHeight := 1;
      path := seq(MAX_HEIGHT, _ => [h]);
      repr := {h};
    }

    /** At every level, `prev` is the last node before the key. */
    ghost predicate IsPrev(prev: seq<Node>, places: seq<nat>, key: InternalKey)
      requires Shape()
      reads this
    {
      && |prev| == |places| == MAX_HEIGHT
      && forall l :: 0 <= l < MAX_HEIGHT ==> IsPrevAt(l, prev[l], places[l], key)
    }

    ghost predicate IsPrevAt(l: nat, x: Node, k: nat, key: InternalKey)
      requires Shape() && l < MAX_HEIGHT
      reads this
    {
      Splits(path[l], k, key) && path[l][k] == x
    }

    /** FindGreaterOrEqual, with the `prev` array filled in. */
    method FindGreaterOrEqual(key: InternalKey) returns (r: Node?, prev: seq<Node>, ghost places: seq<nat>)
      requires Ok()
      ensures IsCeiling(Keys(), key, KeyOf(r))
      ensures IsPrev(prev, places, key)
      ensures r == Successor(path[0], places[0])
    {
      hide KeysAscend, Splits, Linked, IsCeiling;
      AboveMaxHeight(key);
      prev := seq(MAX_HEIGHT, _ => head);
      places := seq(MAX_HEIGHT, _ => 0);
      var x := head;
      ghost var k: nat := 0;
      var level := maxHeight - 1;
      while true
        invariant 0 <= level < maxHeight && k < |path[level]| && path[level][k] == x
        invariant k > 0 ==> Less(x.key, key)
        invariant |prev| == |places| == MAX_HEIGHT
        invariant forall l :: level < l < MAX_HEIGHT ==> IsPrevAt(l, prev[l], places[l], key)
        decreases level, |path[level]| - k
      {
        AtNode(level, k);
        var next := x.next[level];
        if next != null && Less(next.key, key) {
          x := next;
          k := k + 1;
        } else {
          StopIsCeiling(path[level], k, key);
          prev := prev[level := x];
          places := places[level := k];
          if level == 0 {
            return next, prev, places;
          }
          level := level - 1;
          k := PlaceBelow(level, x, k);
        }
      }
    }

    lemma AboveMaxHeight(key: InternalKey)
      requires Shape()
      ensures forall l :: maxHeight <= l < MAX_HEIGHT ==> IsPrevAt(l, head, 0, key)
    {
    }

    /** What a load from the `k`th node of a level yields. */
    lemma AtNode(level: nat, k: nat)
      requires Ok() && level < MAX_HEIGHT && k < |path[level]|
      ensures level < |path[level][k].next| && path[level][k].next[level] == Successor(path[level], k)
      ensures KeysAscend(path[level])
    {
      assert Linked(level);
    }

    /** A node of a level is a node of the level below. */
    lemma PlaceBelow(level: nat, x: Node, k: nat) returns (j: nat)
      requires Shape() && level + 1 < MAX_HEIGHT && k < |path[level + 1]| && path[level + 1][k] == x
      ensures j < |path[level]| && path[level][j] == x && (j > 0 <==> k > 0)
    {
      assert path[level + 1][k] in path[level];
      j :| 0 <= j < |path[level]| && path[level][j] == x;
    }

    /** FindLessThan: the last node before the key, or the head. */
    method FindLessThan(key: InternalKey) returns (x: Node, ghost k: nat)
      requires Ok()
      ensures IsPrevAt(0, x, k, key)
    {
      hide KeysAscend, Splits, Linked, IsCeiling;
      x := head;
      k := 0;
      var level := maxHeight - 1;
      while true
        invariant 0 <= level < maxHeight && k < |path[level]| && path[level][k] == x
        invariant k > 0 ==> Less(x.key, key)
        decreases level, |path[level]| - k
      {
        AtNode(level, k);
        var next := x.next[level];
        if next == null || !Less(next.key, key) {
          if level == 0 {
            StopIsCeiling(path[0], k, key);
            return;
          }
          level := level - 1;
          k := PlaceBelow(level, x, k);
        } else {
          x := next;
          k := k + 1;
        }
      }
    }

    /** FindLast: the last node, or the head of an empty list. */
    method FindLast() returns (x: Node)
      requires Ok()
      ensures x == path[0][|path[0]| - 1]
    {
      x := head;
      ghost var k: nat := 0;
      var level := maxHeight - 1;
      while true
        invariant 0 <= level < maxHeight && k < |path[level]| && path[level][k] == x
        decreases level, |path[level]| - k
      {
        AtNode(level, k);
        var next := x.next[level];
        if next == null {
          if level == 0 {
            return;
          }
          level := level - 1;
          k := PlaceBelow(level, x, k);
        } else {
          x := next;
          k := k + 1;
        }
      }
    }

    /** One load of a searching reader: move right, or down, or stop. */
    method Load(x: Node, level: nat, target: InternalKey) returns (x2: Node, level2: nat, found: bool, r: Node?)
      requires Ok() && level < MAX_HEIGHT && Reached(x, level, target)
      ensures !found ==> level2 <= level && Reached(x2, level2, target)
      ensures !found && level2 != level ==> x2 == x
      ensures !found && level2 == level ==> Less(x2.key, target) && (x == head || Less(x.key, x2.key)) && x2 != head
      ensures found ==> IsCeiling(Keys(), target, KeyOf(r))
    {
      ghost var k :| 0 <= k < |path[level]| && path[level][k] == x;
      assert Linked(level);
      var next := x.next[level];
      x2, level2, found, r := x, level, false, next;
      if next != null && Less(next.key, target) {
        x2 := next;
      } else if level == 0 {
        found := true;
        StopIsCeiling(path[0], k, target);
      } else {
        level2 := level - 1;
      }
    }

    /** A reader has come to a node of the level that lies before its target. */
    ghost predicate Reached(x: Node, level: nat, target: InternalKey)
      requires Shape()
      reads this
    {
      level < MAX_HEIGHT && x in path[level] && (x == head || Less(x.key, target))
    }

    lemma ReachedKey(x: Node, level: nat, target: InternalKey)
      requires Shape() && Reached(x, level, target) && x != head
      ensures x.key in Keys()
    {
      assert level > 0 ==> Below(path[level], path[0]);
      var j :| 0 <= j < |path[0]| && path[0][j] == x;
    }

    /** The first half of Insert: search, raise the height of the list, make the node. */
    method Begin(key: InternalKey, height: nat) returns (insertion: Insertion)
      requires Ok() && key !in Keys() && 0 < height <= MAX_HEIGHT
      modifies this`maxHeight, this`repr
      ensures fresh(insertion) && insertion.list == this && insertion.node.key == key && insertion.height == height
      ensures insertion.i == 0 && !insertion.pointed && insertion.Ok()
      ensures Ok() && path == old(path) && fresh(repr - old(repr))
      ensures maxHeight == if height > old(maxHeight) then height else old(maxHeight)
    {
      var _, prev, places := FindGreaterOrEqual(key);
      KeyIsNew(key);
      if height > maxHeight {
        maxHeight := height;
      }
      var node := new Node(key, height);
      repr := repr + {node};
      insertion := new Insertion(this, node, height, prev, places);
      forall l | 0 <= l < MAX_HEIGHT
        ensures Linked(l)
      {
        assert old(Linked(l));
      }
    }

    lemma KeyIsNew(key: InternalKey)
      requires Shape() && key !in Keys()
      ensures forall l, k :: 0 <= l < MAX_HEIGHT && 0 < k < |path[l]| ==> path[l][k].key != key
    {
      forall l, k | 0 <= l < MAX_HEIGHT && 0 < k < |path[l]|
        ensures path[l][k].key in Keys()
      {
        assert l > 0 ==> Below(path[l], path[0]);
        assert path[l][k] in path[0];
        var j :| 0 <= j < |path[0]| && path[0][j] == path[l][k];
      }
    }

    /** The first store: the node points on to what follows its predecessor.  No reader can
        reach it at this level yet. */
    method Point(node: Node, before: Node, l: nat, ghost k: nat)
      requires Ok() && l < maxHeight && k < |path[l]| && path[l][k] == before
      requires node in repr && node !in path[l] && l < |node.next|
      modifies node
      ensures Ok() && |node.next| == old(|node.next|) && l < |before.next| && node.next[l] == before.next[l]
    {
      AtNode(l, k);
      node.next := node.next[l := before.next[l]];
      forall m | 0 <= m < MAX_HEIGHT
        ensures Linked(m)
      {
        assert old(Linked(m));
      }
    }

    /** The second store publishes the node behind its predecessor. */
    method Publish(node: Node, before: Node, l: nat, ghost k: nat)
      requires Ok() && l < maxHeight && k < |path[l]| && path[l][k] == before && Splits(path[l], k, node.key)
      requires node in repr && node != head && l < |node.next|
      requires l < |before.next| && node.next[l] == before.next[l]
      requires forall j :: 0 < j < |path[l]| ==> path[l][j].key != node.key
      requires LinkedBelow(path, l, node)
      modifies this`path, before
      ensures Ok() && path == old(path)[l := Spliced(old(path[l]), k, node)] && |node.next| == old(|node.next|)
      ensures KeysOf(path[l]) == old(KeysOf(path[l])) + {node.key}
    {
      hide KeysAscend, Splits, Below, KeysOf, ChainBy;
      assert IsLevel(path[l], head, repr);
      SplicedShape(path, head, maxHeight, repr, l, k, node);
      NodesApart(path[l], k, node);
      AtNode(l, k);
      ChainsAreLinks(this);
      ghost var nexts, p := NextsOf(repr), path[l];
      ChainsAfterLink(path, nexts, l, k, node);
      assert nexts[node][l := nexts[before][l]] == nexts[node];
      before.next := before.next[l := node];
      path := path[l := Spliced(p, k, node)];
      assert NextsOf(repr) == LinkedIn(nexts, l, before, node);
      ChainsAreLinks(this);
    }

    method Insert(key: InternalKey, height: nat)
      requires Ok() && key !in Keys() && 0 < height <= MAX_HEIGHT
      modifies this, repr
      ensures Ok() && Keys() == old(Keys()) + {key} && fresh(repr - old(repr))
    {
      var insertion := Begin(key, height);
      while insertion.i < height
        invariant insertion.Ok() && !insertion.pointed && insertion.i <= height && fresh(insertion)
        invariant Keys() == old(Keys()) + (if insertion.i == 0 then {} else {key})
        invariant fresh(repr - old(repr))
      {
        insertion.Point();
        insertion.Publish();
      }
    }

    method Contains(key: InternalKey) returns (r: bool)
      requires Ok()
      ensures r <==> key in Keys()
    {
      var x, _, _ := FindGreaterOrEqual(key);
      r := x != null && x.key == key;
      LessIsTotal(key, key, key);
    }
  }

  lemma StopIsCeiling(p: seq<Node>, k: nat, target: InternalKey)
    requires KeysAscend(p) && k < |p|
    requires k > 0 ==> Less(p[k].key, target)
    requires k + 1 < |p| ==> !Less(p[k + 1].key, target)
    ensures IsCeiling(KeysOf(p), target, KeyOf(Successor(p, k)))
    ensures Splits(p, k, target)
  {
    forall j | 0 < j < |p|
      ensures j <= k ==> Less(p[j].key, target)
      ensures j > k ==> !Less(p[j].key, target) && LessEq(p[k + 1].key, p[j].key)
    {
    }
  }

  /** A level with a node linked in after place `k`. */
  ghost function Spliced(p: seq<Node>, k: nat, n: Node): seq<Node>
    requires k < |p|
  {
    p[..k + 1] + [n] + p[k + 1..]
  }

  lemma SplicedAt(p: seq<Node>, k: nat, n: Node)
    requires k < |p|
    ensures var q := Spliced(p, k, n);
      && |q| == |p| + 1
      && (forall j :: 0 <= j <= k ==> q[j] == p[j])
      && q[k + 1] == n
      && (forall j :: k + 1 < j < |q| ==> q[j] == p[j - 1])
    ensures forall x :: x in Spliced(p, k, n) <==> x in p || x == n
  {
    var q := Spliced(p, k, n);
    assert p == p[..k + 1] + p[k + 1..];
    forall x
      ensures x in q <==> x in p || x == n
    {
      if x in p {
        var j :| 0 <= j < |p| && p[j] == x;
        assert if j <= k then q[j] == x else q[j + 1] == x;
      }
    }
  }

  lemma SplicedAscends(p: seq<Node>, k: nat, n: Node)
    requires KeysAscend(p) && Splits(p, k, n.key)
    requires forall j :: 0 < j < |p| ==> p[j].key != n.key
    ensures KeysAscend(Spliced(p, k, n))
    ensures KeysOf(Spliced(p, k, n)) == KeysOf(p) + {n.key}
  {
    var q := Spliced(p, k, n);
    SplicedAt(p, k, n);
    forall i, j | 0 < i < j < |q|
      ensures Less(q[i].key, q[j].key)
    {
      SplicedPair(p, k, n, i, j);
    }
    forall x
      ensures x in KeysOf(q) <==> x in KeysOf(p) || x == n.key
    {
      if x in KeysOf(p) {
        var j :| 0 < j < |p| && p[j].key == x;
        assert if j <= k then q[j].key == x else q[j + 1].key == x;
      }
      if x == n.key {
        assert q[k + 1].key == x;
      }
    }
  }

  lemma SplicedPair(p: seq<Node>, k: nat, n: Node, i: nat, j: nat)
    requires KeysAscend(p) && Splits(p, k, n.key)
    requires forall j :: 0 < j < |p| ==> p[j].key != n.key
    requires 0 < i < j <= |p|
    ensures Less(Spliced(p, k, n)[i].key, Spliced(p, k, n)[j].key)
  {
    SplicedAt(p, k, n);
    if j > k + 1 {
      assert !Less(p[j - 1].key, n.key);
    }
  }

  lemma SplicedShape(path: seq<seq<Node>>, head: Node, maxHeight: nat, repr: set<Node>, i: nat, k: nat, n: Node)
    requires ShapeOf(path, head, maxHeight, repr) && i < maxHeight && n in repr && n != head
    requires Splits(path[i], k, n.key)
    requires forall j :: 0 < j < |path[i]| ==> path[i][j].key != n.key
    requires LinkedBelow(path, i, n)
    ensures ShapeOf(path[i := Spliced(path[i], k, n)], head, maxHeight, repr)
    ensures KeysOf(Spliced(path[i], k, n)) == KeysOf(path[i]) + {n.key}
  {
    var q := Spliced(path[i], k, n);
    SplicedAt(path[i], k, n);
    SplicedAscends(path[i], k, n);
    assert IsLevel(q, head, repr);
    forall m | i < m < MAX_HEIGHT
      ensures Below(path[m], q)
    {
      assert Below(path[m], path[i]);
    }
    forall l | 0 <= l < i
      ensures Below(q, path[l])
    {
      assert Below(path[i], path[l]);
    }
  }

  /** The pointers of some nodes, as a value. */
  ghost function NextsOf(nodes: set<Node>): map<Node, seq<Node?>>
    reads nodes
  {
    map x | x in nodes :: x.next
  }

  /** The pointers of level `l` lead through the nodes of `p`. */
  ghost predicate ChainBy(p: seq<Node>, nexts: map<Node, seq<Node?>>, l: nat) {
    forall k :: 0 <= k < |p| ==> p[k] in nexts && l < |nexts[p[k]]| && nexts[p[k]][l] == Successor(p, k)
  }

  lemma ChainsAreLinks(list: SkipList)
    requires list.Shape()
    ensures (forall l :: 0 <= l < MAX_HEIGHT ==> list.Linked(l)) <==>
      (forall l :: 0 <= l < MAX_HEIGHT ==> ChainBy(list.path[l], NextsOf(list.repr), l))
  {
    forall l | 0 <= l < MAX_HEIGHT
      ensures list.Linked(l) <==> ChainBy(list.path[l], NextsOf(list.repr), l)
    {
      assert IsLevel(list.path[l], list.head, list.repr);
    }
  }

  /** What linking a node in at level `i` does to the pointers of level `l`. */
  lemma ChainAfterLink(q: seq<Node>, p: seq<Node>, nexts: map<Node, seq<Node?>>, l: nat, i: nat, k: nat, node: Node)
    requires ChainBy(q, nexts, l) && ChainBy(p, nexts, i) && k < |p| && (l == i ==> q == p)
    requires node in nexts && i < |nexts[node]| && node !in p
    requires forall j :: 0 <= j < |p| && j != k ==> p[j] != p[k]
    ensures ChainBy(if l == i then Spliced(p, k, node) else q, LinkedIn(nexts, i, p[k], node), l)
  {
    if l == i {
      ChainSpliced(p, nexts, i, k, node);
    } else {
      ChainUntouched(q, nexts, l, i, p[k], node);
    }
  }

  lemma ChainSpliced(p: seq<Node>, nexts: map<Node, seq<Node?>>, i: nat, k: nat, node: Node)
    requires ChainBy(p, nexts, i) && k < |p| && node in nexts && i < |nexts[node]| && node !in p
    requires forall j :: 0 <= j < |p| && j != k ==> p[j] != p[k]
    ensures ChainBy(Spliced(p, k, node), LinkedIn(nexts, i, p[k], node), i)
  {
    SplicedAt(p, k, node);
  }

  /** The other levels do not change. */
  lemma ChainUntouched(q: seq<Node>, nexts: map<Node, seq<Node?>>, l: nat, i: nat, before: Node, node: Node)
    requires ChainBy(q, nexts, l) && l != i && before in nexts && i < |nexts[before]|
    requires node in nexts && i < |nexts[node]|
    ensures ChainBy(q, LinkedIn(nexts, i, before, node), l)
  {
  }

  /** The pointers after one turn of the linking loop. */
  ghost function LinkedIn(nexts: map<Node, seq<Node?>>, i: nat, before: Node, node: Node): map<Node, seq<Node?>>
    requires before in nexts && node in nexts && i < |nexts[before]| && i < |nexts[node]|
  {
    nexts[node := nexts[node][i := nexts[before][i]]][before := nexts[before][i := node]]
  }

  lemma ChainsAfterLink(path: seq<seq<Node>>, nexts: map<Node, seq<Node?>>, i: nat, k: nat, node: Node)
    requires |path| == MAX_HEIGHT && i < MAX_HEIGHT && k < |path[i]|
    requires forall l :: 0 <= l < MAX_HEIGHT ==> ChainBy(path[l], nexts, l)
    requires node in nexts && i < |nexts[node]| && node !in path[i]
    requires forall j :: 0 <= j < |path[i]| && j != k ==> path[i][j] != path[i][k]
    ensures path[i][k] in nexts && i < |nexts[path[i][k]]|
    ensures var path2, after := path[i := Spliced(path[i], k, node)], LinkedIn(nexts, i, path[i][k], node);
      forall l :: 0 <= l < MAX_HEIGHT ==> ChainBy(path2[l], after, l)
  {
    assert ChainBy(path[i], nexts, i);
    var path2, after := path[i := Spliced(path[i], k, node)], LinkedIn(nexts, i, path[i][k], node);
    forall l | 0 <= l < MAX_HEIGHT
      ensures ChainBy(path2[l], after, l)
    {
      ChainAfterLink(path[l], path[i], nexts, l, i, k, node);
    }
  }

  /** An insertion under way: its node is linked at the levels below `i`, and points on at
      level `i` if `pointed`. */
  class Insertion {
    const list: SkipList
    const node: Node
    const height: nat
    const prev: seq<Node>
    ghost const places: seq<nat>
    var i: nat
    var pointed: bool

    ghost predicate Pending()
      requires list.Shape()
      reads this, list
    {
      && 0 < height <= list.maxHeight && i <= height && |prev| == |places| == MAX_HEIGHT
      && node in list.repr && node != list.head
      && LinkedBelow(list.path, i, node)
      && UnlinkedAbove(list.path, i, height, prev, places, node)
    }

    ghost predicate Ok()
      reads this, list, list.repr
    {
      && list.Ok() && Pending() && |node.next| == height
      && (pointed ==> i < height && prev[i] in list.repr && i < |prev[i].next| && node.next[i] == prev[i].next[i])
    }

    constructor (list: SkipList, node: Node, height: nat, prev: seq<Node>, ghost places: seq<nat>)
      ensures this.list == list && this.node == node && this.height == height && i == 0
      ensures this.prev == prev && this.places == places && !pointed
    {
      this.list, this.node, this.height, this.prev, this.places := list, node, height, prev, places;
      i, pointed := 0, false;
    }

    lemma Ready()
      requires Ok() && i < height
      ensures places[i] < |list.path[i]| && list.path[i][places[i]] == prev[i] && Splits(list.path[i], places[i], node.key)
      ensures i > 0 ==> node in list.path[0] && list.Keys() + {node.key} == list.Keys()
      ensures forall j :: 0 < j < |list.path[i]| ==> list.path[i][j].key != node.key
      ensures LinkedBelow(list.path, i, node)
    {
      if i > 0 {
        assert node in list.path[0];
        var j :| 0 <= j < |list.path[0]| && list.path[0][j] == node;
        assert list.path[0][j].key in list.Keys();
      }
    }

    /** The first store of a turn of the linking loop. */
    method Point()
      requires Ok() && i < height && !pointed
      modifies this`pointed, node
      ensures Ok() && pointed
    {
      Ready();
      NodeIsNew();
      list.AtNode(i, places[i]);
      hide KeysAscend, Splits, Below, KeysOf, LinkedBelow, UnlinkedAbove;
      list.Point(node, prev[i], i, places[i]);
      pointed := true;
    }

    lemma NodeIsNew()
      requires Ok() && i < height
      ensures node !in list.path[i] && prev[i] in list.repr && prev[i] != node
    {
      Ready();
      assert IsLevel(list.path[i], list.head, list.repr);
    }

    /** The second store of the turn. */
    method Publish()
      requires Ok() && pointed
      modifies this`i, this`pointed, list`path, list.repr
      ensures Ok() && i == old(i) + 1 && !pointed
      ensures list.Keys() == old(list.Keys()) + {node.key}
      ensures |list.path| == |old(list.path)| && forall l :: 0 <= l < |list.path| ==> Below(old(list.path)[l], list.path[l])
    {
      Ready();
      OneLevelMore(list.path, i, height, prev, places, node);
      SplicedGrows(list.path, i, places[i], node);
      hide KeysAscend, Splits, Below, KeysOf, LinkedBelow, UnlinkedAbove;
      list.Publish(node, prev[i], i, places[i]);
      i := i + 1;
      pointed := false;
    }
  }

  /** The node is in the levels below `i` ... */
  ghost predicate LinkedBelow(path: seq<seq<Node>>, i: nat, node: Node)
    requires i <= |path|
  {
    forall l :: 0 <= l < i ==> node in path[l]
  }

  /** ... and from `i` on its key is in no level, and `prev` says where it goes. */
  ghost predicate UnlinkedAbove(path: seq<seq<Node>>, i: nat, height: nat, prev: seq<Node>, places: seq<nat>, node: Node)
    requires i <= height <= |path| == |prev| == |places|
  {
    && (forall l :: i <= l < height ==> Splits(path[l], places[l], node.key) && path[l][places[l]] == prev[l])
    && (forall l, k :: i <= l < |path| && 0 < k < |path[l]| ==> path[l][k].key != node.key)
  }

  lemma OneLevelMore(path: seq<seq<Node>>, i: nat, height: nat, prev: seq<Node>, places: seq<nat>, node: Node)
    requires i < height <= |path| == |prev| == |places|
    requires LinkedBelow(path, i, node) && UnlinkedAbove(path, i, height, prev, places, node)
    ensures var path2 := path[i := Spliced(path[i], places[i], node)];
      LinkedBelow(path2, i + 1, node) && UnlinkedAbove(path2, i + 1, height, prev, places, node)
  {
    SplicedAt(path[i], places[i], node);
  }

  /** Linking a node in takes no node away. */
  lemma SplicedGrows(path: seq<seq<Node>>, i: nat, k: nat, n: Node)
    requires i < |path| && k < |path[i]|
    ensures var path2 := path[i := Spliced(path[i], k, n)];
      |path2| == |path| && forall l :: 0 <= l < |path| ==> Below(path[l], path2[l])
  {
    SplicedAt(path[i], k, n);
  }

  /** The nodes of a level are all different, and none of them is the new one. */
  lemma NodesApart(p: seq<Node>, k: nat, n: Node)
    requires KeysAscend(p) && k < |p| && n != p[0]
    requires forall j :: 0 < j < |p| ==> p[j] != p[0] && p[j].key != n.key
    ensures forall j :: 0 <= j < |p| && j != k ==> p[j] != p[k]
    ensures n !in p
  {
  }

  /** The last node before the key of a node is the one just before it. */
  lemma JustBefore(p: seq<Node>, j: nat, k: nat)
    requires KeysAscend(p) && 0 < k < |p| && Splits(p, j, p[k].key)
    ensures j == k - 1
  {
    LessIsTotal(p[k].key, p[k].key, p[k].key);
    OneSplit(p, j, k - 1, p[k].key);
  }

  lemma OneSplit(p: seq<Node>, a: nat, b: nat, key: InternalKey)
    requires Splits(p, a, key)
    requires b < |p| && (b > 0 ==> Less(p[b].key, key)) && (b + 1 < |p| ==> !Less(p[b + 1].key, key))
    ensures a == b
  {
    if b + 1 < |p| {
      NotBeyond(p, a, b, key);
    }
  }

  lemma NotBeyond(p: seq<Node>, a: nat, b: nat, key: InternalKey)
    requires Splits(p, a, key) && b + 1 < |p| && !Less(p[b + 1].key, key)
    ensures a <= b
  {
  }

  /** Position of an iterator: a node of the list, or none. */
  class ListIterator {
    const list: SkipList
    var node: Node?

    ghost predicate Ok()
      reads this, list, list.repr
    {
      list.Ok() && (node != null ==> node in list.path[0][1..])
    }

    ghost predicate StandsAt(k: nat)
      requires Ok()
      reads this, list, list.repr
    {
      var p := list.path[0];
      if 0 < k < |p| then node == p[k] else node == null
    }

    constructor (list: SkipList)
      requires list.Ok()
      ensures Ok() && node == null && this.list == list
    {
      this.list := list;
      node := null;
    }

    method Seek(target: InternalKey)
      requires list.Ok()
      modifies this
      ensures Ok() && IsCeiling(list.Keys(), target, KeyOf(node))
    {
      ghost var places;
      var r, prev;
      r, prev, places := list.FindGreaterOrEqual(target);
      node := r;
    }

    method SeekToFirst()
      requires list.Ok()
      modifies this
      ensures Ok() && StandsAt(1)
    {
      list.AtNode(0, 0);
      node := list.head.next[0];
    }

    method SeekToLast()
      requires list.Ok()
      modifies this
      ensures Ok() && StandsAt(|list.path[0]| - 1)
    {
      var x := list.FindLast();
      node := if x == list.head then null else x;
    }

    method Next(ghost k: nat)
      requires Ok() && node != null && StandsAt(k)
      modifies this
      ensures Ok() && StandsAt(k + 1)
    {
      list.AtNode(0, k);
      node := node.next[0];
    }

    /** Prev searches again for the last node before the key. */
    method Prev(ghost k: nat)
      requires Ok() && node != null && StandsAt(k)
      modifies this
      ensures Ok() && StandsAt(k - 1)
    {
      ghost var j;
      var x;
      x, j := list.FindLessThan(node.key);
      JustBefore(list.path[0], j, k);
      node := if x == list.head then null else x;
    }
  }

  ghost function KeysBegun(inserts: seq<(InternalKey, nat)>, n: nat): set<InternalKey>
    requires n <= |inserts|
  {
    set i | 0 <= i < n :: inserts[i].0
  }

  /** How many turns of the reader are among the first. */
  function Turns(readerTurns: seq<bool>): (n: nat)
    ensures n <= |readerTurns|
  {
    if readerTurns == [] then 0
    else Turns(readerTurns[..|readerTurns| - 1]) + if readerTurns[|readerTurns| - 1] then 1 else 0
  }

  lemma TurnsNext(readerTurns: seq<bool>, turn: nat)
    requires turn < |readerTurns|
    ensures Turns(readerTurns[..turn + 1]) == Turns(readerTurns[..turn]) + if readerTurns[turn] then 1 else 0
  {
    assert readerTurns[..turn + 1][..turn] == readerTurns[..turn];
  }

  /** Turns of the writer for the first `n` insertions: one to begin, two for each level. */
  function Stores(inserts: seq<(InternalKey, nat)>, n: nat): nat
    requires n <= |inserts|
  {
    if n == 0 then 0 else Stores(inserts, n - 1) + 1 + 2 * inserts[n - 1].1
  }

  lemma {:induction false} StoresAscend(inserts: seq<(InternalKey, nat)>, m: nat, n: nat)
    requires m < n <= |inserts|
    ensures Stores(inserts, m) < Stores(inserts, n)
    decreases n
  {
    if m < n - 1 {
      StoresAscend(inserts, m, n - 1);
    }
  }

  /** The keys that a reader at a node may still have to pass. */
  ghost function Ahead(all: set<InternalKey>, head: Node, x: Node, target: InternalKey): set<InternalKey> {
    set k | k in all && Less(k, target) && (x == head || Less(x.key, k))
  }

  lemma AheadShrinks(all: set<InternalKey>, head: Node, x: Node, y: Node, target: InternalKey)
    requires y.key in all && y != head && Less(y.key, target) && (x == head || Less(x.key, y.key))
    ensures |Ahead(all, head, y, target)| < |Ahead(all, head, x, target)|
  {
    assert y.key in Ahead(all, head, x, target) && y.key !in Ahead(all, head, y, target);
    assert Ahead(all, head, y, target) <= Ahead(all, head, x, target) - {y.key};
    SubsetSize(Ahead(all, head, y, target), Ahead(all, head, x, target) - {y.key});
  }

  lemma {:induction false} SubsetSize<T>(a: set<T>, b: set<T>)
    requires a <= b
    ensures |a| <= |b|
  {
    if a != {} {
      var x :| x in a;
      SubsetSize(a - {x}, b - {x});
    }
  }

  /** What the writer has done after so many turns. */
  ghost predicate Written(inserts: seq<(InternalKey, nat)>, begun: nat, insertion: Insertion?, turns: nat,
                          keys: set<InternalKey>)
    requires begun <= |inserts|
    reads if insertion == null then {} else {insertion}
  {
    if insertion == null then begun == 0 && (turns == 0 || inserts == [])
    else
      && begun > 0 && insertion.height == inserts[begun - 1].1 && insertion.i <= insertion.height
      && insertion.node.key == inserts[begun - 1].0
      && KeysBegun(inserts, begun - 1) <= keys && (insertion.i > 0 ==> insertion.node.key in keys)
      && (turns == Stores(inserts, begun - 1) + 1 + 2 * insertion.i + (if insertion.pointed then 1 else 0)
        || (turns >= Stores(inserts, begun) && begun == |inserts| && insertion.i == insertion.height))
  }

  /** Enough turns for the first `n` insertions have linked all of their keys. */
  lemma WrittenEnough(inserts: seq<(InternalKey, nat)>, begun: nat, insertion: Insertion?, turns: nat,
                      keys: set<InternalKey>, n: nat)
    requires begun <= |inserts| && Written(inserts, begun, insertion, turns, keys)
    requires n <= |inserts| && Stores(inserts, n) <= turns && (insertion != null && insertion.pointed ==> insertion.i < insertion.height)
    requires forall i :: 0 <= i < |inserts| ==> inserts[i].1 > 0
    ensures KeysBegun(inserts, n) <= keys
  {
    if insertion != null && n >= begun {
      if n > begun {
        StoresAscend(inserts, begun, n);
      }
      assert insertion.i > 0;
      assert n == begun;
    }
  }

  /** No node has left any level. */
  ghost predicate Grown(before: seq<seq<Node>>, after: seq<seq<Node>>) {
    |after| == |before| && forall l :: 0 <= l < |before| ==> Below(before[l], after[l])
  }

  /** Insertions that are in order: heights, and keys that are new. */
  ghost predicate Insertable(inserts: seq<(InternalKey, nat)>, keys: set<InternalKey>) {
    && (forall i :: 0 <= i < |inserts| ==> 0 < inserts[i].1 <= MAX_HEIGHT && inserts[i].0 !in keys)
    && forall i, j :: 0 <= i < j < |inserts| ==> inserts[i].0 != inserts[j].0
  }

  ghost predicate UnderWay(list: SkipList, insertion: Insertion?)
    reads list, list.repr, if insertion == null then {} else {insertion}
  {
    list.Ok() && (insertion != null ==> insertion.list == list && insertion.Ok())
  }

  /** One turn of the writer: a store of the insertion under way, or the next one begins. */
  method WriterTurn(list: SkipList, inserts: seq<(InternalKey, nat)>, begun0: nat, insertion0: Insertion?,
                    ghost turns: nat, ghost keys: set<InternalKey>, ghost x: Node, ghost level: nat,
                    ghost target: InternalKey)
    returns (begun: nat, insertion: Insertion?)
    requires begun0 <= |inserts| && UnderWay(list, insertion0) && Insertable(inserts, keys)
    requires Written(inserts, begun0, insertion0, turns, list.Keys())
    requires keys <= list.Keys() <= keys + KeysBegun(inserts, begun0) && list.Reached(x, level, target)
    modifies list, list.repr, if insertion0 == null then {} else {insertion0}
    ensures begun <= |inserts| && UnderWay(list, insertion) && fresh(list.repr - old(list.repr))
    ensures insertion == insertion0 || fresh(insertion)
    ensures Written(inserts, begun, insertion, turns + 1, list.Keys())
    ensures keys <= list.Keys() <= keys + KeysBegun(inserts, begun)
    ensures list.Reached(x, level, target)
  {
    hide Insertable;
    begun, insertion := begun0, insertion0;
    NotYetThere(inserts, begun, keys);
    if insertion != null && insertion.i < insertion.height {
      assert insertion.node.key in KeysBegun(inserts, begun);
      if !insertion.pointed {
        insertion.Point();
      } else {
        ghost var path := list.path;
        insertion.Publish();
        StillReached(path, list.path, x, level);
      }
    } else if begun < |inserts| {
      if insertion != null {
        AllBegun(inserts, begun);
      }
      insertion := list.Begin(inserts[begun].0, inserts[begun].1);
      begun := begun + 1;
    }
  }

  lemma NotYetThere(inserts: seq<(InternalKey, nat)>, n: nat, keys: set<InternalKey>)
    requires n <= |inserts| && Insertable(inserts, keys)
    ensures n < |inserts| ==>
      inserts[n].0 !in KeysBegun(inserts, n) && inserts[n].0 !in keys && 0 < inserts[n].1 <= MAX_HEIGHT
  {
  }

  /** One turn of the reader. */
  method ReaderTurn(list: SkipList, x: Node, level: nat, target: InternalKey, ghost all: set<InternalKey>)
    returns (x2: Node, level2: nat, found: bool, r: Node?)
    requires list.Ok() && list.Reached(x, level, target) && list.Keys() <= all
    ensures found ==> IsCeiling(list.Keys(), target, KeyOf(r))
    ensures !found ==> list.Reached(x2, level2, target)
    ensures !found ==> level2 + |Ahead(all, list.head, x2, target)| < level + |Ahead(all, list.head, x, target)|
  {
    hide Ahead, IsCeiling;
    x2, level2, found, r := list.Load(x, level, target);
    if !found {
      if level2 == level {
        list.ReachedKey(x2, level2, target);
        AheadShrinks(all, list.head, x, x2, target);
      }
    }
  }

  lemma AllBegun(inserts: seq<(InternalKey, nat)>, n: nat)
    requires 0 < n <= |inserts|
    ensures KeysBegun(inserts, n) == KeysBegun(inserts, n - 1) + {inserts[n - 1].0}
  {
  }

  /** Where reader and writer are after the first turns. */
  ghost predicate RaceAt(list: SkipList, inserts: seq<(InternalKey, nat)>, readerTurns: seq<bool>, turn: nat,
                         keys: set<InternalKey>, startHeight: nat, begun: nat, insertion: Insertion?, x: Node,
                         level: nat, target: InternalKey)
    reads list, list.repr, if insertion == null then {} else {insertion}
  {
    && turn <= |readerTurns| && begun <= |inserts| && UnderWay(list, insertion) && Insertable(inserts, keys)
    && list.Reached(x, level, target) && keys <= list.Keys() <= keys + KeysBegun(inserts, begun)
    && Turns(readerTurns[..turn]) + level + |Ahead(keys + KeysBegun(inserts, |inserts|), list.head, x, target)|
      < startHeight + |keys + KeysBegun(inserts, |inserts|)|
    && Turns(readerTurns[..turn]) <= turn
    && Written(inserts, begun, insertion, turn - Turns(readerTurns[..turn]), list.Keys())
  }

  method RaceTurn(list: SkipList, inserts: seq<(InternalKey, nat)>, readerTurns: seq<bool>, turn: nat,
                  ghost keys: set<InternalKey>, ghost startHeight: nat, begun0: nat, insertion0: Insertion?, x0: Node,
                  level0: nat, target: InternalKey)
    returns (begun: nat, insertion: Insertion?, x: Node, level: nat, found: bool, r: Node?)
    requires RaceAt(list, inserts, readerTurns, turn, keys, startHeight, begun0, insertion0, x0, level0, target)
    requires turn < |readerTurns|
    modifies list, list.repr, if insertion0 == null then {} else {insertion0}
    ensures fresh(list.repr - old(list.repr)) && (insertion == insertion0 || fresh(insertion))
    ensures found ==> Finds(list, keys, inserts, target, r)
    ensures !found ==>
      RaceAt(list, inserts, readerTurns, turn + 1, keys, startHeight, begun, insertion, x, level, target)
  {
    hide Turns, Stores, Ahead, Written, Insertable, IsCeiling, KeysBegun, ShapeOf, SkipList.Linked;
    begun, insertion, x, level, found, r := begun0, insertion0, x0, level0, false, null;
    TurnsNext(readerTurns, turn);
    FewerBegun(inserts, begun);
    if readerTurns[turn] {
      x, level, found, r := ReaderTurn(list, x, level, target, keys + KeysBegun(inserts, |inserts|));
    } else {
      begun, insertion := WriterTurn(list, inserts, begun, insertion, turn - Turns(readerTurns[..turn]), keys, x, level,
        target);
    }
  }

  /** What a reader that has finished knows. */
  ghost predicate Finds(list: SkipList, keys: set<InternalKey>, inserts: seq<(InternalKey, nat)>, target: InternalKey,
                        r: Node?)
    reads list, list.repr
  {
    && list.Ok() && IsCeiling(list.Keys(), target, KeyOf(r))
    && keys <= list.Keys() <= keys + KeysBegun(inserts, |inserts|)
  }

  method TakeTurns(list: SkipList, target: InternalKey, startHeight: nat, inserts: seq<(InternalKey, nat)>,
                   readerTurns: seq<bool>, turn0: nat, ghost keys: set<InternalKey>, begun0: nat,
                   insertion0: Insertion?, x0: Node, level0: nat)
    returns (found: bool, r: Node?, ghost begun: nat, ghost insertion: Insertion?, ghost x: Node, ghost level: nat)
    requires RaceAt(list, inserts, readerTurns, turn0, keys, startHeight, begun0, insertion0, x0, level0, target)
    modifies list, list.repr, if insertion0 == null then {} else {insertion0}
    ensures found ==> Finds(list, keys, inserts, target, r)
    ensures !found ==>
      RaceAt(list, inserts, readerTurns, |readerTurns|, keys, startHeight, begun, insertion, x, level, target)
    decreases |readerTurns| - turn0
  {
    assert turn0 <= |readerTurns|;
    hide RaceAt, Finds;
    if turn0 == |readerTurns| {
      found, r, begun, insertion, x, level := false, null, begun0, insertion0, x0, level0;
    } else {
      var n, ins, node, l;
      n, ins, node, l, found, r :=
        RaceTurn(list, inserts, readerTurns, turn0, keys, startHeight, begun0, insertion0, x0, level0, target);
      if found {
        begun, insertion, x, level := n, ins, node, l;
      } else {
        found, r, begun, insertion, x, level :=
          TakeTurns(list, target, startHeight, inserts, readerTurns, turn0 + 1, keys, n, ins, node, l);
      }
    }
  }

  /** A writer that inserts keys one after another and a reader that searches without a
      lock, interleaved in any way at single pointer loads and stores, with the reader
      starting at any height it may have seen.  The writer's own search, the height that it
      raises and the making of the node are one turn: the reader sees only the height.  What the
      reader returns is the first key at or after its target among the keys linked at that
      moment; it finishes within as many turns as there are levels and keys, whatever the
      writer does; and the writer links a key within its own turns, whatever the reader does. */
  method Race(list: SkipList, target: InternalKey, startHeight: nat,
              inserts: seq<(InternalKey, nat)>, readerTurns: seq<bool>) returns (found: bool, r: Node?)
    requires list.Ok() && 0 < startHeight <= MAX_HEIGHT && Insertable(inserts, list.Keys())
    modifies list, list.repr
    ensures list.Ok()
    ensures old(list.Keys()) <= list.Keys() <= old(list.Keys()) + KeysBegun(inserts, |inserts|)
    ensures found ==> IsCeiling(list.Keys(), target, KeyOf(r))
    ensures Turns(readerTurns) >= startHeight + |old(list.Keys()) + KeysBegun(inserts, |inserts|)| ==> found
    ensures forall n :: 0 <= n <= |inserts| && Stores(inserts, n) <= |readerTurns| - Turns(readerTurns) && !found ==>
      KeysBegun(inserts, n) <= list.Keys()
  {
    ghost var keys := list.Keys();
    ghost var begun, insertion, x, level;
    RaceBegins(list, inserts, readerTurns, startHeight, target);
    found, r, begun, insertion, x, level :=
      TakeTurns(list, target, startHeight, inserts, readerTurns, 0, keys, 0, null, list.head, startHeight - 1);
    hide Turns, Stores, Insertable, IsCeiling, KeysBegun, ShapeOf, SkipList.Linked;
    if !found {
      RaceEnds(list, inserts, readerTurns, keys, startHeight, begun, insertion, x, level, target);
      forall n | 0 <= n <= |inserts| && Stores(inserts, n) <= |readerTurns| - Turns(readerTurns)
        ensures KeysBegun(inserts, n) <= list.Keys()
      {
        LinkedByNow(list, inserts, readerTurns, keys, startHeight, begun, insertion, x, level, target, n);
      }
    }
  }

  /** What is known when all turns are over. */
  lemma RaceEnds(list: SkipList, inserts: seq<(InternalKey, nat)>, readerTurns: seq<bool>, keys: set<InternalKey>,
                 startHeight: nat, begun: nat, insertion: Insertion?, x: Node, level: nat, target: InternalKey)
    requires RaceAt(list, inserts, readerTurns, |readerTurns|, keys, startHeight, begun, insertion, x, level, target)
    ensures list.Ok() && keys <= list.Keys() <= keys + KeysBegun(inserts, |inserts|)
    ensures Turns(readerTurns) < startHeight + |keys + KeysBegun(inserts, |inserts|)|
  {
    hide Turns, Stores, Ahead, Written, Insertable;
    FewerBegun(inserts, begun);
    assert readerTurns[..|readerTurns|] == readerTurns;
  }

  lemma LinkedByNow(list: SkipList, inserts: seq<(InternalKey, nat)>, readerTurns: seq<bool>, keys: set<InternalKey>,
                    startHeight: nat, begun: nat, insertion: Insertion?, x: Node, level: nat, target: InternalKey,
                    n: nat)
    requires RaceAt(list, inserts, readerTurns, |readerTurns|, keys, startHeight, begun, insertion, x, level, target)
    requires list.Shape() && n <= |inserts| && Stores(inserts, n) <= |readerTurns| - Turns(readerTurns)
    ensures KeysBegun(inserts, n) <= list.Keys()
  {
    hide Turns, Stores, Ahead, Written, Insertable, KeysBegun;
    assert readerTurns[..|readerTurns|] == readerTurns;
    HeightsPositive(inserts, keys);
    WrittenEnough(inserts, begun, insertion, |readerTurns| - Turns(readerTurns), list.Keys(), n);
  }

  lemma RaceBegins(list: SkipList, inserts: seq<(InternalKey, nat)>, readerTurns: seq<bool>, startHeight: nat,
                   target: InternalKey)
    requires list.Ok() && 0 < startHeight <= MAX_HEIGHT && Insertable(inserts, list.Keys())
    ensures
      RaceAt(list, inserts, readerTurns, 0, list.Keys(), startHeight, 0, null, list.head, startHeight - 1, target)
  {
    hide Insertable, SkipList.Linked;
    var all := list.Keys() + KeysBegun(inserts, |inserts|);
    SubsetSize(Ahead(all, list.head, list.head, target), all);
  }

  lemma FewerBegun(inserts: seq<(InternalKey, nat)>, n: nat)
    requires n <= |inserts|
    ensures KeysBegun(inserts, n) <= KeysBegun(inserts, |inserts|)
  {
  }

  lemma StillReached(before: seq<seq<Node>>, after: seq<seq<Node>>, x: Node, level: nat)
    requires Grown(before, after) && level < |before| && x in before[level]
    ensures x in after[level]
  {
    assert Below(before[level], after[level]);
  }

  lemma HeightsPositive(inserts: seq<(InternalKey, nat)>, keys: set<InternalKey>)
    requires Insertable(inserts, keys)
    ensures forall i :: 0 <= i < |inserts| ==> inserts[i].1 > 0
  {
  }
}
