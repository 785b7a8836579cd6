/** The pointer heap of libuv that holds the running timers (src/heap-inl.h). */
module Heaps {

  /** A timer, with the heap node that is embedded in it. */
  class HeapNode {
    var left: HeapNode?
    var right: HeapNode?
    var parent: HeapNode?
    var timeout: nat
    var startId: nat
    var repeat: nat
    var active: bool
    var hasCallback: bool

    constructor ()
      ensures !active && !hasCallback && repeat == 0
    {
      timeout, startId, repeat, active, hasCallback := 0, 0, 0, false, false;
      left, right, parent := null, null, null;
    }
  }

  /** timer_less_than. */
  predicate LessThan(a: HeapNode, b: HeapNode)
    reads a`timeout, b`timeout, a`startId, b`startId
  {
    if a.timeout < b.timeout then true
    else if b.timeout < a.timeout then false
    else a.startId < b.startId
  }

  /** The slots of a complete binary tree, counted level by level: slot `i` has its children
      in slots 2i + 1 and 2i + 2. */
  function Left(i: nat): nat { 2 * i + 1 }

  function Right(i: nat): nat { 2 * i + 2 }

  function Up(i: nat): nat
    requires i > 0
  {
    (i - 1) / 2
  }

  function At(slots: seq<HeapNode>, i: nat): HeapNode? {
    if i < |slots| then slots[i] else null
  }

  function Above(slots: seq<HeapNode>, i: nat): HeapNode?
    requires i < |slots|
  {
    if i == 0 then null else slots[Up(i)]
  }

  ghost predicate Wired(slots: seq<HeapNode>, i: nat)
    requires i < |slots|
    reads {slots[i]}`left, {slots[i]}`right, {slots[i]}`parent
  {
    && slots[i].left == At(slots, Left(i))
    && slots[i].right == At(slots, Right(i))
    && slots[i].parent == Above(slots, i)
  }

  /** The links of some nodes, as a value. */
  datatype Around = Around(left: HeapNode?, right: HeapNode?, parent: HeapNode?)

  ghost function LinksOf(nodes: seq<HeapNode>): map<HeapNode, Around>
    reads nodes`left, nodes`right, nodes`parent
  {
    map x | x in nodes :: Around(x.left, x.right, x.parent)
  }

  ghost predicate WiredBy(slots: seq<HeapNode>, links: map<HeapNode, Around>) {
    forall i :: 0 <= i < |slots| ==> WiredByAt(slots, links, i)
  }

  ghost predicate WiredByAt(slots: seq<HeapNode>, links: map<HeapNode, Around>, i: nat)
    requires i < |slots|
  {
    slots[i] in links && links[slots[i]] == Around(At(slots, Left(i)), At(slots, Right(i)), Above(slots, i))
  }

  lemma WiredAsValue(slots: seq<HeapNode>)
    ensures WiredBy(slots, LinksOf(slots)) <==> forall i :: 0 <= i < |slots| ==> Wired(slots, i)
  {
    if WiredBy(slots, LinksOf(slots)) {
      forall i | 0 <= i < |slots|
        ensures Wired(slots, i)
      {
        assert WiredByAt(slots, LinksOf(slots), i);
      }
    }
    if forall i :: 0 <= i < |slots| ==> Wired(slots, i) {
      forall i | 0 <= i < |slots|
        ensures WiredByAt(slots, LinksOf(slots), i)
      {
        assert Wired(slots, i);
      }
    }
  }

  /** Two nodes have changed places: all links are renamed. */
  ghost predicate LinksSwapped(p: HeapNode, c: HeapNode, before: map<HeapNode, Around>, after: map<HeapNode, Around>) {
    forall x: HeapNode :: x in before ==>
      var y := Other(p, c, x);
      y in after && after[y] == Around(Other(p, c, before[x].left), Other(p, c, before[x].right), Other(p, c, before[x].parent))
  }

  lemma SwappedWired(s: seq<HeapNode>, i: nat, j: nat, before: map<HeapNode, Around>, after: map<HeapNode, Around>)
    requires i < |s| && j < |s| && AllDifferent(s) && WiredBy(s, before) && LinksSwapped(s[i], s[j], before, after)
    ensures WiredBy(Swapped(s, i, j), after)
  {
    forall k | 0 <= k < |s|
      ensures WiredByAt(Swapped(s, i, j), after, k)
    {
      SwappedAt(s, i, j, k);
      assert WiredByAt(s, before, k);
      if k > 0 {
        SlotFacts(k);
        SwappedAt(s, i, j, Up(k));
      }
    }
  }

  /** A new node hangs below slot Up(n), where n is the number of slots. */
  ghost predicate LinksExtended(s: seq<HeapNode>, node: HeapNode, before: map<HeapNode, Around>,
                                after: map<HeapNode, Around>) {
    var n := |s|;
    && node in after && after[node] == Around(null, null, if n == 0 then null else s[Up(n)])
    && (forall x :: x in before ==> x in after)
    && (forall x :: x in before && !(n > 0 && x == s[Up(n)]) ==> after[x] == before[x])
    && (n > 0 && s[Up(n)] in before ==>
      var a := before[s[Up(n)]];
      after[s[Up(n)]] == if n == Right(Up(n)) then a.(right := node) else a.(left := node))
  }

  lemma AppendedWired(s: seq<HeapNode>, node: HeapNode, before: map<HeapNode, Around>, after: map<HeapNode, Around>)
    requires AllDifferent(s) && node !in s && WiredBy(s, before) && LinksExtended(s, node, before, after)
    ensures WiredBy(s + [node], after) && AllDifferent(s + [node])
  {
    var n := |s|;
    var q := s + [node];
    forall i | 0 <= i < |q|
      ensures WiredByAt(q, after, i)
    {
      SlotFacts(i);
      if n > 0 {
        SlotFacts(n);
      }
      if i < n {
        assert WiredByAt(s, before, i);
      }
    }
  }

  /** The pointer to the last slot has been set to null. */
  ghost predicate LinksCut(s: seq<HeapNode>, before: map<HeapNode, Around>, after: map<HeapNode, Around>)
    requires s != []
  {
    var n := |s| - 1;
    && (forall x :: x in before ==> x in after)
    && (forall x :: x in before && !(n > 0 && x == s[Up(n)]) ==> after[x] == before[x])
    && (n > 0 && s[Up(n)] in before ==>
      var a := before[s[Up(n)]];
      after[s[Up(n)]] == if n == Right(Up(n)) then a.(right := null) else a.(left := null))
  }

  lemma CutWired(s: seq<HeapNode>, before: map<HeapNode, Around>, after: map<HeapNode, Around>)
    requires s != [] && AllDifferent(s) && WiredBy(s, before) && LinksCut(s, before, after)
    ensures WiredBy(s[..|s| - 1], after)
  {
    var n := |s| - 1;
    var q := s[..n];
    forall i | 0 <= i < n
      ensures WiredByAt(q, after, i)
    {
      assert WiredByAt(s, before, i);
      SlotFacts(i);
      if n > 0 {
        SlotFacts(n);
      }
    }
  }

  /** A node outside has taken the place of one inside: links to the one lead to the other. */
  ghost predicate LinksRedirected(node: HeapNode, last: HeapNode, before: map<HeapNode, Around>,
                                  after: map<HeapNode, Around>) {
    forall x: HeapNode :: x in before ==>
      var y := Instead(node, last, x);
      y in after
      && after[y] == Around(Instead(node, last, before[x].left), Instead(node, last, before[x].right),
                            Instead(node, last, before[x].parent))
  }

  lemma ReplacedWired(s: seq<HeapNode>, p: nat, last: HeapNode, before: map<HeapNode, Around>, after: map<HeapNode, Around>)
    requires p < |s| && AllDifferent(s) && last !in s && WiredBy(s, before) && LinksRedirected(s[p], last, before, after)
    ensures WiredBy(s[p := last], after)
  {
    var q := s[p := last];
    forall i | 0 <= i < |q|
      ensures WiredByAt(q, after, i)
    {
      ReplacedAt(s, p, last, i);
      assert WiredByAt(s, before, i);
      if i > 0 {
        SlotFacts(i);
        ReplacedAt(s, p, last, Up(i));
      }
    }
  }

  ghost predicate AllDifferent(slots: seq<HeapNode>) {
    forall i, j :: 0 <= i < j < |slots| ==> slots[i] != slots[j]
  }

  lemma SlotFacts(i: nat)
    ensures Up(Left(i)) == i && Up(Right(i)) == i
    ensures i > 0 ==> Up(i) < i && (i == Left(Up(i)) || i == Right(Up(i)))
  {
  }

  /** The tree with two slots exchanged. */
  function Swapped(slots: seq<HeapNode>, i: nat, j: nat): seq<HeapNode>
    requires i < |slots| && j < |slots|
  {
    slots[i := slots[j]][j := slots[i]]
  }

  ghost function Present(nodes: set<HeapNode?>): set<HeapNode> {
    set x: HeapNode | x in nodes
  }

  /** The parent of slot `i` does not come after it. */
  ghost predicate Ordered(s: seq<HeapNode>, i: nat)
    requires 0 < i < |s|
    reads s`timeout, s`startId
  {
    !LessThan(s[i], s[Up(i)])
  }

  ghost predicate AllOrdered(s: seq<HeapNode>)
    reads s`timeout, s`startId
  {
    forall i :: 0 < i < |s| ==> Ordered(s, i)
  }

  /** Only slot `j` may come before its parent; its children do not. */
  ghost predicate TooLow(s: seq<HeapNode>, j: nat)
    reads s`timeout, s`startId
  {
    && j < |s|
    && (forall i :: 0 < i < |s| && i != j ==> Ordered(s, i))
    && (forall i :: 0 < i < |s| && j > 0 && Up(i) == j ==> !LessThan(s[i], s[Up(j)]))
  }

  /** Slot `j` may be out of order with its parent and with its children, but none of these
      with each other. */
  ghost predicate Loose(s: seq<HeapNode>, j: nat)
    reads s`timeout, s`startId
  {
    && j < |s|
    && (forall i :: 0 < i < |s| && i != j && Up(i) != j ==> Ordered(s, i))
    && (forall i :: 0 < i < |s| && j > 0 && Up(i) == j ==> !LessThan(s[i], s[Up(j)]))
  }

  /** A child of slot `j` comes before it, and not after the other child. */
  ghost predicate SmallestChild(s: seq<HeapNode>, j: nat, m: nat)
    reads s`timeout, s`startId
  {
    && 0 < m < |s| && j < |s| && Up(m) == j && LessThan(s[m], s[j])
    && forall i :: 0 < i < |s| && Up(i) == j ==> !LessThan(s[i], s[m])
  }

  lemma DownStep(s: seq<HeapNode>, j: nat, m: nat)
    requires Loose(s, j) && SmallestChild(s, j, m)
    ensures Loose(Swapped(s, j, m), m)
  {
    var q := Swapped(s, j, m);
    SlotFacts(m);
    forall i | 0 < i < |q| && i != m && Up(i) != m
      ensures Ordered(q, i)
    {
      SlotFacts(i);
      if i != j && Up(i) != j {
        assert Ordered(s, i);
      }
    }
    forall i | 0 < i < |q| && Up(i) == m
      ensures !LessThan(q[i], q[Up(m)])
    {
      SlotFacts(i);
      assert Ordered(s, i);
    }
  }

  lemma DownDone(s: seq<HeapNode>, j: nat)
    requires Loose(s, j) && forall i :: 0 < i < |s| && Up(i) == j ==> !LessThan(s[i], s[j])
    ensures TooLow(s, j)
  {
    forall i | 0 < i < |s| && i != j
      ensures Ordered(s, i)
    {
    }
  }

  lemma ReplacedLoose(s: seq<HeapNode>, j: nat, x: HeapNode)
    requires AllOrdered(s) && j < |s|
    ensures Loose(s[j := x], j)
  {
    var q := s[j := x];
    forall i | 0 < i < |q| && i != j && Up(i) != j
      ensures Ordered(q, i)
    {
      assert Ordered(s, i);
    }
    forall i | 0 < i < |q| && j > 0 && Up(i) == j
      ensures !LessThan(q[i], q[Up(j)])
    {
      SlotFacts(i);
      SlotFacts(j);
      assert Ordered(s, i) && Ordered(s, j);
    }
  }

  lemma UpStep(s: seq<HeapNode>, j: nat)
    requires TooLow(s, j) && j > 0 && LessThan(s[j], s[Up(j)])
    ensures TooLow(Swapped(s, Up(j), j), Up(j))
  {
    var i := Up(j);
    var q := Swapped(s, i, j);
    SlotFacts(j);
    forall k | 0 < k < |q| && k != i
      ensures Ordered(q, k)
    {
      UpStepOrdered(s, j, k);
    }
    forall k | 0 < k < |q| && i > 0 && Up(k) == i
      ensures !LessThan(q[k], q[Up(i)])
    {
      UpStepAbove(s, j, k);
      SlotFacts(i);
      assert Up(i) != i && Up(i) != j;
    }
  }

  lemma UpStepAbove(s: seq<HeapNode>, j: nat, k: nat)
    requires TooLow(s, j) && j > 0 && Up(j) > 0 && 0 < k < |s| && Up(k) == Up(j)
    ensures !LessThan(if k == j then s[Up(j)] else s[k], s[Up(Up(j))])
  {
    SlotFacts(j);
    SlotFacts(Up(j));
    assert Ordered(s, Up(j));
    if k != j {
      assert Ordered(s, k);
      NotLessTransitive(s[k], s[Up(j)], s[Up(Up(j))]);
    }
  }

  lemma NotLessTransitive(a: HeapNode, b: HeapNode, c: HeapNode)
    requires !LessThan(a, b) && !LessThan(b, c)
    ensures !LessThan(a, c)
  {
  }

  lemma UpStepOrdered(s: seq<HeapNode>, j: nat, k: nat)
    requires TooLow(s, j) && j > 0 && LessThan(s[j], s[Up(j)]) && 0 < k < |s| && k != Up(j)
    ensures Ordered(Swapped(s, Up(j), j), k)
  {
    SlotFacts(j);
    SlotFacts(k);
    if k != j {
      assert Ordered(s, k);
    }
  }

  lemma UpDone(s: seq<HeapNode>, j: nat)
    requires TooLow(s, j) && (j > 0 ==> !LessThan(s[j], s[Up(j)]))
    ensures AllOrdered(s)
  {
    forall i | 0 < i < |s|
      ensures Ordered(s, i)
    {
    }
  }

  class Heap {
    var min: HeapNode?
    var nelts: nat
    ghost var slots: seq<HeapNode>

    /** Parent and child links agree with the slots. */
    ghost predicate Complete()
      reads this, slots`left, slots`right, slots`parent
    {
      && nelts == |slots| && min == At(slots, 0) && AllDifferent(slots)
      && forall i :: 0 <= i < |slots| ==> Wired(slots, i)
    }

    ghost predicate Valid()
      reads this, slots`left, slots`right, slots`parent, slots`timeout, slots`startId
    {
      Complete() && AllOrdered(slots)
    }

    ghost function Nodes(): set<HeapNode>
      reads this
    {
      set x | x in slots
    }

    constructor ()
      ensures Valid() && slots == []
    {
      min, nelts, slots := null, 0, [];
    }

    /** heap_node_swap: exchange a child with its parent by rewiring the nodes around them. */
    method NodeSwap(parent: HeapNode, child: HeapNode)
      requires parent != child && child.parent == parent && (parent.left == child <==> parent.right != child)
      requires Apart(parent, child)
      modifies this`min, parent`left, parent`right, parent`parent, child`left, child`right, child`parent
      modifies Present({parent.left, parent.right, child.left, child.right})`parent
      modifies Present({parent.parent})`left, Present({parent.parent})`right
      ensures parent.left == old(child.left) && parent.right == old(child.right) && parent.parent == child
      ensures child.parent == old(parent.parent)
      ensures child.left == if old(parent.left) == child then parent else old(parent.left)
      ensures child.right == if old(parent.left) == child then old(parent.right) else parent
      ensures child.left != null ==> child.left.parent == child
      ensures child.right != null ==> child.right.parent == child
      ensures parent.left != null ==> parent.left.parent == parent
      ensures parent.right != null ==> parent.right.parent == parent
      ensures child.parent == null ==> min == child
      ensures child.parent != null ==> min == old(min)
      ensures child.parent != null && old(parent.parent.left) == parent ==>
        child.parent.left == child && child.parent.right == old(parent.parent.right)
      ensures child.parent != null && old(parent.parent.left) != parent ==>
        child.parent.left == old(parent.parent.left) && child.parent.right == child
    {
      parent.left, child.left := child.left, parent.left;
      parent.right, child.right := child.right, parent.right;
      parent.parent, child.parent := child.parent, parent.parent;
      parent.parent := child;
      var sibling: HeapNode?;
      if child.left == child {
        child.left := parent;
        sibling := child.right;
      } else {
        child.right := parent;
        sibling := child.left;
      }
      if sibling != null {
        sibling.parent := child;
      }
      if parent.left != null {
        parent.left.parent := parent;
      }
      if parent.right != null {
        parent.right.parent := parent;
      }
      if child.parent == null {
        min := child;
      } else if child.parent.left == parent {
        child.parent.left := child;
      } else {
        child.parent.right := child;
      }
    }

    /** The nodes around an edge of the tree are different nodes. */
    ghost predicate Apart(parent: HeapNode, child: HeapNode)
      reads parent, child
    {
      var sibling := if parent.left == child then parent.right else parent.left;
      && parent.parent != parent && parent.parent != child
      && sibling != parent && sibling != child
      && (sibling != null ==> sibling != parent.parent && sibling != child.left && sibling != child.right)
      && child.left != parent && child.left != child && child.right != parent && child.right != child
      && (child.left != null ==> child.left != child.right && child.left != parent.parent)
      && (child.right != null ==> child.right != parent.parent)
    }

    /** In a complete tree, the nodes around an edge are different. */
    lemma EdgeApart(i: nat, j: nat)
      requires Complete() && 0 < j < |slots| && i == Up(j)
      ensures Apart(slots[i], slots[j]) && slots[j].parent == slots[i] && slots[i] != slots[j]
      ensures slots[i].left == slots[j] <==> slots[i].right != slots[j]
    {
      SlotFacts(i);
      SlotFacts(j);
      assert Wired(slots, i) && Wired(slots, j);
    }

    /** Links lead back: nodes that a node points to point to it. */
    ghost predicate Mutual(x: HeapNode)
      reads x, Present({x.left, x.right, x.parent})
    {
      && (x.left != null ==> x.left.parent == x && x.left != x.right)
      && (x.right != null ==> x.right.parent == x)
      && (x.parent != null ==> x.parent.left == x || x.parent.right == x)
    }

    lemma AllMutual()
      requires Complete()
      ensures forall x :: x in slots ==> Mutual(x)
      ensures forall x :: x in slots ==> Present({x.left, x.right, x.parent}) <= Nodes()
      ensures forall x :: x in slots && x.parent == null ==> x == min
    {
      forall x | x in slots
        ensures Mutual(x) && Present({x.left, x.right, x.parent}) <= Nodes() && (x.parent == null ==> x == min)
      {
        var i :| 0 <= i < |slots| && slots[i] == x;
        MutualAt(i);
      }
    }

    lemma MutualAt(i: nat)
      requires Complete() && i < |slots|
      ensures Mutual(slots[i]) && Present({slots[i].left, slots[i].right, slots[i].parent}) <= Nodes()
      ensures slots[i].parent == null ==> slots[i] == min
    {
      SlotFacts(i);
      assert Wired(slots, i);
      assert Left(i) < |slots| ==> Wired(slots, Left(i));
      assert Right(i) < |slots| ==> Wired(slots, Right(i));
      assert i > 0 ==> Wired(slots, Up(i));
    }

    /** NodeSwap among nodes whose links are mutual. */
    method SwapAmong(p: HeapNode, c: HeapNode, ghost nodes: seq<HeapNode>)
      requires p in nodes && c in nodes && Apart(p, c) && p != c && c.parent == p && (p.left == c <==> p.right != c)
      requires forall x :: x in nodes ==> Mutual(x)
      requires forall x :: x in nodes ==> forall y :: y in Present({x.left, x.right, x.parent}) ==> y in nodes
      modifies this`min, nodes`left, nodes`right, nodes`parent
      ensures LinksSwapped(p, c, old(LinksOf(nodes)), LinksOf(nodes))
      ensures min == if old(p.parent) == null then c else old(min)
    {
      ghost var around := Present({p.left, p.right, c.left, c.right});
      assert forall y :: y in around ==>
        y in Present({p.left, p.right, p.parent}) || y in Present({c.left, c.right, c.parent});
      assert forall y :: y in Present({p.parent}) ==> y in Present({p.left, p.right, p.parent});
      NodeSwap(p, c);
      forall x | x in nodes
        ensures var y: HeapNode := Other(p, c, x);
          y.left == Other(p, c, old(x.left)) && y.right == Other(p, c, old(x.right)) && y.parent == Other(p, c, old(x.parent))
      {
        assert old(Mutual(x));
      }
    }

    /** Exchange slot `j` with the slot above it. */
    method SwapUp(ghost j: nat, parent: HeapNode, child: HeapNode)
      requires Complete() && 0 < j < |slots| && slots[Up(j)] == parent && slots[j] == child
      modifies this`min, this`slots, Nodes()`left, Nodes()`right, Nodes()`parent
      ensures Complete() && slots == Swapped(old(slots), Up(j), j)
    {
      hide Wired, WiredBy, Apart, Mutual, AllDifferent, LinksSwapped;
      ghost var s := slots;
      BeforeSwap(j);
      WiredAsValue(s);
      ghost var before := LinksOf(s);
      SwapAmong(parent, child, s);
      ghost var after := LinksOf(s);
      assert LinksSwapped(parent, child, before, after);
      SwappedWired(s, Up(j), j, before, after);
      ghost var q := Swapped(s, Up(j), j);
      FewerLinks(q, s);
      WiredAsValue(q);
      slots := q;
    }

    lemma BeforeSwap(j: nat)
      requires Complete() && 0 < j < |slots|
      ensures var i := Up(j);
        && Apart(slots[i], slots[j]) && slots[j].parent == slots[i] && slots[i] != slots[j]
        && (slots[i].left == slots[j] <==> slots[i].right != slots[j])
        && AllDifferent(slots) && AllDifferent(Swapped(slots, i, j))
        && At(Swapped(slots, i, j), 0) == if slots[i].parent == null then slots[j] else min
      ensures forall x :: x in slots ==> Mutual(x)
      ensures forall x :: x in slots ==> forall y :: y in Present({x.left, x.right, x.parent}) ==> y in slots
    {
      EdgeApart(Up(j), j);
      AllMutual();
      assert Wired(slots, Up(j));
      SwappedAt(slots, Up(j), j, 0);
    }

    lemma ParentLink(j: nat)
      requires Complete() && j < |slots|
      ensures slots[j].parent == Above(slots, j)
    {
      assert Wired(slots, j);
    }

    lemma OrderDone(j: nat)
      requires Complete() && TooLow(slots, j) && !(slots[j].parent != null && LessThan(slots[j], slots[j].parent))
      ensures Valid()
    {
      ParentLink(j);
      UpDone(slots, j);
    }

    /** Swap a node with its parent, before which it comes. */
    method StepUp(node: HeapNode, ghost j: nat) returns (ghost i: nat)
      requires Complete() && j < |slots| && TooLow(slots, j) && slots[j] == node
      requires node.parent != null && LessThan(node, node.parent)
      modifies this`min, this`slots, Nodes()`left, Nodes()`right, Nodes()`parent
      ensures Complete() && i < |slots| && TooLow(slots, i) && i < j && slots[i] == node && Nodes() == old(Nodes())
    {
      hide Wired, Apart, Mutual, AllDifferent, TooLow;
      ParentLink(j);
      UpStep(slots, j);
      SwappedNodes(slots, Up(j), j);
      SlotFacts(j);
      i := Up(j);
      SwapUp(j, node.parent, node);
    }

    /** The last loop of heap_insert and of heap_remove. */
    method SiftUp(node: HeapNode, ghost j0: nat)
      requires Complete() && TooLow(slots, j0) && slots[j0] == node
      modifies this`min, this`slots, Nodes()`left, Nodes()`right, Nodes()`parent
      ensures Valid() && Nodes() == old(Nodes())
    {
      hide Complete;
      ghost var j: nat := j0;
      while node.parent != null && LessThan(node, node.parent)
        invariant Complete() && j < |slots| && TooLow(slots, j) && slots[j] == node && Nodes() == old(Nodes())
        decreases j
      {
        j := StepUp(node, j);
      }
      OrderDone(j);
    }

    /** Follow the bits of a path from the root to the parent of slot n - 1. */
    method ParentOf(path0: nat, k0: nat, ghost n: nat) returns (parent: HeapNode, right: bool)
      requires Complete() && k0 > 0 && Steps(path0, k0, 1) == n && n <= |slots| + 1
      ensures n >= 2 && parent == slots[Up(n - 1)]
      ensures right <==> n - 1 == Right(Up(n - 1))
      ensures !right <==> n - 1 == Left(Up(n - 1))
    {
      var path, k := path0, k0;
      ghost var m: nat := 1;
      StepsGrow(path, k, m);
      parent := min;
      while k > 1
        invariant k > 0 && m > 0 && Steps(path, k, m) == n && 2 * m <= n && parent == slots[m - 1]
      {
        assert Wired(slots, m - 1);
        assert Steps(path, k, m) == Steps(path / 2, k - 1, 2 * m + path % 2);
        StepsGrow(path / 2, k - 1, 2 * m + path % 2);
        parent := if path % 2 == 1 then parent.right else parent.left;
        m := 2 * m + path % 2;
        path := path / 2;
        k := k - 1;
      }
      assert Steps(path, 1, m) == Steps(path / 2, 0, 2 * m + path % 2);
      right := path % 2 == 1;
    }

    /** heap_insert. */
    method Insert(node: HeapNode)
      requires Valid() && node !in Nodes()
      modifies this, node`left, node`right, node`parent, Nodes()`left, Nodes()`right, Nodes()`parent
      ensures Valid() && Nodes() == old(Nodes()) + {node}
    {
      Append(node);
      AppendedTooLow(node);
      assert Nodes() == old(Nodes()) + {node};
      SiftUp(node, |slots| - 1);
    }

    /** Hang a node into the left-most free place of the bottom row. */
    method Append(node: HeapNode)
      requires Complete() && node !in Nodes()
      modifies this, node`left, node`right, node`parent, Nodes()`left, Nodes()`right
      ensures Complete() && slots == old(slots) + [node]
    {
      ghost var s := slots;
      WiredAsValue(s);
      ghost var before := LinksOf(s);
      Attach(node);
      AppendedWired(s, node, before, LinksOf(s + [node]));
      WiredAsValue(s + [node]);
      nelts := nelts + 1;
      slots := s + [node];
    }

    /** Set the pointer that will lead to the new node. */
    method Attach(node: HeapNode)
      requires Complete() && node !in Nodes()
      modifies this`min, node`left, node`right, node`parent, Nodes()`left, Nodes()`right
      ensures min == if nelts == 0 then node else old(min)
      ensures LinksExtended(slots, node, old(LinksOf(slots)), LinksOf(slots + [node]))
    {
      node.left, node.right, node.parent := null, null, null;
      var path, k := PathTo(1 + nelts);
      if k == 0 {
        assert Steps(path, 0, 1) == 1;
        min := node;
      } else {
        var parent, right := ParentOf(path, k, 1 + nelts);
        node.parent := parent;
        if right {
          parent.right := node;
        } else {
          parent.left := node;
        }
      }
    }

    lemma AppendedTooLow(node: HeapNode)
      requires slots != [] && AllOrdered(slots[..|slots| - 1])
      ensures TooLow(slots, |slots| - 1)
    {
      forall i | 0 < i < |slots| - 1
        ensures Ordered(slots, i)
      {
        assert Ordered(slots[..|slots| - 1], i);
      }
    }

    /** Take the last node of the bottom row out of the tree. */
    method UnlinkLast() returns (last: HeapNode)
      requires Complete() && nelts > 0
      modifies this, Nodes()`left, Nodes()`right
      ensures Complete() && slots == old(slots)[..|old(slots)| - 1] && last == old(slots)[|old(slots)| - 1]
    {
      ghost var s, n := slots, |slots| - 1;
      WiredAsValue(s);
      ghost var before := LinksOf(s);
      last := DetachLast();
      CutWired(s, before, LinksOf(s));
      FewerLinks(s[..n], s);
      WiredAsValue(s[..n]);
      nelts := nelts - 1;
      slots := s[..n];
    }

    /** Set to null the pointer that leads to the last node. */
    method DetachLast() returns (last: HeapNode)
      requires Complete() && nelts > 0
      modifies this`min, Nodes()`left, Nodes()`right
      ensures last == slots[|slots| - 1]
      ensures min == if nelts == 1 then null else old(min)
      ensures LinksCut(slots, old(LinksOf(slots)), LinksOf(slots))
    {
      ghost var n := |slots| - 1;
      assert Wired(slots, n);
      var path, k := PathTo(nelts);
      if k == 0 {
        last := min;
        min := null;
      } else {
        var parent, right := ParentOf(path, k, nelts);
        assert Wired(slots, Up(n));
        if right {
          last := parent.right;
          parent.right := null;
        } else {
          last := parent.left;
          parent.left := null;
        }
      }
    }

    /** Copy the links of a node, and turn the links that lead to it. */
    method TakePlace(node: HeapNode, last: HeapNode)
      requires last != node && last !in Present({node.left, node.right, node.parent})
      requires node !in Present({node.left, node.right, node.parent}) && Mutual(node)
      modifies this`min, last`left, last`right, last`parent
      modifies Present({node.left, node.right})`parent, Present({node.parent})`left, Present({node.parent})`right
      ensures last.left == node.left == old(node.left) && last.right == node.right == old(node.right)
      ensures last.parent == node.parent == old(node.parent)
      ensures last.left != null ==> last.left.parent == last
      ensures last.right != null ==> last.right.parent == last
      ensures min == if last.parent == null then last else old(min)
      ensures last.parent != null && old(node.parent.left) == node ==>
        last.parent.left == last && last.parent.right == old(node.parent.right)
      ensures last.parent != null && old(node.parent.left) != node ==>
        last.parent.left == old(node.parent.left) && last.parent.right == last
    {
      last.left, last.right, last.parent := node.left, node.right, node.parent;
      if last.left != null {
        last.left.parent := last;
      }
      if last.right != null {
        last.right.parent := last;
      }
      if node.parent == null {
        min := last;
      } else if node.parent.left == node {
        node.parent.left := last;
      } else {
        node.parent.right := last;
      }
    }

    /** Put a node into the place of another, among nodes whose links are mutual. */
    method Redirect(node: HeapNode, last: HeapNode, ghost nodes: seq<HeapNode>)
      requires node in nodes && last !in nodes && node !in Present({node.left, node.right, node.parent})
      requires forall x :: x in nodes ==> Mutual(x)
      requires forall x :: x in nodes ==> forall y :: y in Present({x.left, x.right, x.parent}) ==> y in nodes
      modifies this`min, last`left, last`right, last`parent, nodes`left, nodes`right, nodes`parent
      ensures LinksRedirected(node, last, old(LinksOf(nodes)), LinksOf(nodes + [last]))
      ensures min == if old(node.parent) == null then last else old(min)
    {
      assert Mutual(node);
      assert forall y :: y in Present({node.left, node.right, node.parent}) ==> y in nodes;
      assert forall y :: y in Present({node.left, node.right}) + Present({node.parent}) ==>
        y in Present({node.left, node.right, node.parent});
      TakePlace(node, last);
      forall x | x in nodes
        ensures var y: HeapNode := Instead(node, last, x);
          && y.left == Instead(node, last, old(x.left)) && y.right == Instead(node, last, old(x.right))
          && y.parent == Instead(node, last, old(x.parent))
      {
        assert old(Mutual(x));
      }
    }

    method Replace(node: HeapNode, last: HeapNode, ghost p: nat)
      requires Complete() && p < |slots| && slots[p] == node && last !in Nodes()
      modifies this`min, this`slots, last`left, last`right, last`parent, Nodes()`left, Nodes()`right, Nodes()`parent
      ensures Complete() && slots == old(slots)[p := last]
    {
      hide Wired, WiredBy, Mutual, AllDifferent, LinksRedirected;
      ghost var s := slots;
      BeforeReplace(p, last);
      WiredAsValue(s);
      ghost var before := LinksOf(s);
      Redirect(node, last, s);
      slots := s[p := last];
      ReplacedWired(s, p, last, before, LinksOf(s + [last]));
      FewerLinks(slots, s + [last]);
      WiredAsValue(slots);
    }

    /** Only the links of the nodes in the slots matter. */
    lemma FewerLinks(s: seq<HeapNode>, more: seq<HeapNode>)
      requires WiredBy(s, LinksOf(more))
      ensures WiredBy(s, LinksOf(s))
    {
      forall i | 0 <= i < |s|
        ensures WiredByAt(s, LinksOf(s), i)
      {
        assert WiredByAt(s, LinksOf(more), i);
      }
    }

    lemma BeforeReplace(p: nat, last: HeapNode)
      requires Complete() && p < |slots| && last !in slots
      ensures slots[p] !in Present({slots[p].left, slots[p].right, slots[p].parent})
      ensures AllDifferent(slots) && AllDifferent(slots[p := last])
      ensures At(slots[p := last], 0) == if slots[p].parent == null then last else min
      ensures forall x :: x in slots ==> Mutual(x)
      ensures forall x :: x in slots ==> forall y :: y in Present({x.left, x.right, x.parent}) ==> y in slots
    {
      SlotFacts(p);
      assert Wired(slots, p);
      AllMutual();
    }

    /** The first loop of heap_remove after the replacement. */
    method SiftDown(child: HeapNode, ghost j0: nat) returns (ghost j: nat)
      requires Complete() && j0 < |slots| && Loose(slots, j0) && slots[j0] == child
      modifies this`min, this`slots, Nodes()`left, Nodes()`right, Nodes()`parent
      ensures Complete() && j < |slots| && TooLow(slots, j) && slots[j] == child && Nodes() == old(Nodes())
    {
      hide Complete, Loose, TooLow, SmallestChild;
      j := j0;
      while true
        invariant Complete() && j < |slots| == |old(slots)| && Loose(slots, j) && slots[j] == child &&
          Nodes() == old(Nodes())
        decreases |old(slots)| - j
      {
        ghost var m;
        var smallest;
        smallest, m := Smallest(child, j);
        if smallest == child {
          DownDone(slots, j);
          break;
        }
        StepDown(child, smallest, j, m);
        j := m;
      }
    }

    /** The node itself, or the child that comes before it and before the other child. */
    method Smallest(child: HeapNode, ghost j: nat) returns (smallest: HeapNode, ghost m: nat)
      requires Complete() && j < |slots| && slots[j] == child
      ensures smallest == child ==> forall i :: 0 < i < |slots| && Up(i) == j ==> !LessThan(slots[i], slots[j])
      ensures smallest != child ==> SmallestChild(slots, j, m) && slots[m] == smallest
    {
      assert Wired(slots, j);
      smallest, m := child, j;
      if child.left != null && LessThan(child.left, smallest) {
        smallest := child.left;
      }
      if child.right != null && LessThan(child.right, smallest) {
        smallest := child.right;
      }
      forall i | 0 < i < |slots| && Up(i) == j
        ensures i == Left(j) || i == Right(j)
      {
        SlotFacts(i);
      }
      SlotFacts(j);
      if smallest != child {
        m := if smallest == child.right then Right(j) else Left(j);
      }
    }

    lemma ChildPlace(j: nat, m: nat)
      requires SmallestChild(slots, j, m)
      ensures 0 < m < |slots| && Up(m) == j && j < m
    {
      SlotFacts(m);
    }

    method StepDown(child: HeapNode, smallest: HeapNode, ghost j: nat, ghost m: nat)
      requires Complete() && j < |slots| && Loose(slots, j) && slots[j] == child
      requires SmallestChild(slots, j, m) && slots[m] == smallest
      modifies this`min, this`slots, Nodes()`left, Nodes()`right, Nodes()`parent
      ensures Complete() && j < m < |slots| == |old(slots)| && Loose(slots, m) && slots[m] == child
      ensures Nodes() == old(Nodes())
    {
      ChildPlace(j, m);
      hide Wired, AllDifferent, Loose, SmallestChild, Apart, Mutual, Heap.Complete;
      DownStep(slots, Up(m), m);
      SwappedNodes(slots, Up(m), m);
      ghost var q := Swapped(slots, Up(m), m);
      assert q[m] == child && |q| == |slots| && Loose(q, m);
      SwapUp(m, child, smallest);
      assert slots == q;
    }

    lemma Distinct()
      requires Complete()
      ensures AllDifferent(slots)
    {
    }

    /** Put the last node into the place of the removed one, and restore the order. */
    method Fill(node: HeapNode, last: HeapNode)
      requires Valid() && node in Nodes() && last !in Nodes()
      modifies this`min, this`slots, last`left, last`right, last`parent, Nodes()`left, Nodes()`right, Nodes()`parent
      ensures Valid() && Nodes() == old(Nodes()) - {node} + {last}
    {
      hide Wired, AllDifferent, AllOrdered, Loose, Mutual, TooLow;
      ghost var p :| 0 <= p < |slots| && slots[p] == node;
      Distinct();
      ReplacedLoose(slots, p, last);
      ReplacedNodes(slots, p, last);
      Replace(node, last, p);
      assert Nodes() == old(Nodes()) - {node} + {last};
      ghost var j := SiftDown(last, p);
      SiftUp(last, j);
    }

    /** heap_remove, of any node. */
    method Remove(node: HeapNode)
      requires Valid() && (nelts > 0 ==> node in Nodes())
      modifies this, Nodes()`left, Nodes()`right, Nodes()`parent
      ensures Valid() && Nodes() == old(Nodes()) - {node}
    {
      if nelts == 0 {
        return;
      }
      hide Wired, AllDifferent, AllOrdered, Loose, Mutual;
      WithoutLast(slots);
      Distinct();
      var last := UnlinkLast();
      if last == node {
        return;
      }
      Fill(node, last);
    }

    /** heap_dequeue takes out a node that no other comes before. */
    method Dequeue() returns (node: HeapNode?)
      requires Valid()
      modifies this, Nodes()`left, Nodes()`right, Nodes()`parent
      ensures Valid()
      ensures node == null <==> old(Nodes()) == {}
      ensures node != null ==> node in old(Nodes()) && Nodes() == old(Nodes()) - {node}
      ensures node != null ==> forall x :: x in old(Nodes()) ==> !LessThan(x, node)
    {
      node := min;
      if node != null {
        MinIsFirst();
        Remove(node);
      }
    }

    /** The root comes first. */
    lemma MinIsFirst()
      requires Valid()
      ensures min == null <==> Nodes() == {}
      ensures min != null ==> min in Nodes() && forall x :: x in Nodes() ==> !LessThan(x, min)
    {
      assert slots != [] ==> slots[0] in Nodes();
      forall x | x in slots
        ensures !LessThan(x, min)
      {
        var i :| 0 <= i < |slots| && slots[i] == x;
        RootFirst(slots, i);
      }
    }
  }

  lemma {:induction false} RootFirst(s: seq<HeapNode>, i: nat)
    requires AllOrdered(s) && i < |s|
    ensures !LessThan(s[i], s[0])
  {
    if i > 0 {
      SlotFacts(i);
      RootFirst(s, Up(i));
      assert Ordered(s, i);
    }
  }

  /** Cutting off the last slot keeps the order, and takes one node away. */
  lemma WithoutLast(s: seq<HeapNode>)
    requires s != [] && AllOrdered(s) && AllDifferent(s)
    ensures AllOrdered(s[..|s| - 1])
    ensures forall x :: x in s[..|s| - 1] <==> x in s && x != s[|s| - 1]
  {
    var q := s[..|s| - 1];
    assert s == q + [s[|s| - 1]];
    forall i | 0 < i < |q|
      ensures Ordered(q, i)
    {
      assert Ordered(s, i);
    }
  }

  lemma ReplacedNodes(s: seq<HeapNode>, p: nat, x: HeapNode)
    requires p < |s| && AllDifferent(s)
    ensures forall y :: y in s[p := x] <==> (y in s && y != s[p]) || y == x
  {
    var q := s[p := x];
    forall y | y in s && y != s[p]
      ensures y in q
    {
      var i :| 0 <= i < |s| && s[i] == y;
      assert q[i] == y;
    }
    assert q[p] == x;
  }

  /** The node to which a link to `x` leads once `last` has taken the place of `node`. */
  function Instead(node: HeapNode, last: HeapNode, x: HeapNode?): HeapNode? {
    if x == node then last else x
  }

  lemma ReplacedAt(s: seq<HeapNode>, p: nat, last: HeapNode, i: nat)
    requires p < |s| && i < |s| && AllDifferent(s)
    ensures s[p := last][i] == Instead(s[p], last, s[i])
    ensures forall m: nat :: At(s[p := last], m) == Instead(s[p], last, At(s, m))
  {
  }

  /** The place, counted from 1, that a path of `k` bits leads to from place `m`. */
  ghost function Steps(path: nat, k: nat, m: nat): nat {
    if k == 0 then m else Steps(path / 2, k - 1, 2 * m + path % 2)
  }

  lemma {:induction false} StepsGrow(path: nat, k: nat, m: nat)
    ensures Steps(path, k, m) >= m
    ensures k > 0 ==> Steps(path, k, m) >= 2 * m
  {
    if k > 0 {
      StepsGrow(path / 2, k - 1, 2 * m + path % 2);
    }
  }

  /** The bits of `n` below the highest, the highest first. */
  method PathTo(n: nat) returns (path: nat, k: nat)
    requires n > 0
    ensures Steps(path, k, 1) == n
  {
    path, k := 0, 0;
    var rest := n;
    while rest >= 2
      invariant rest > 0 && Steps(path, k, rest) == n
    {
      assert (2 * path + rest % 2) / 2 == path;
      path := 2 * path + rest % 2;
      k := k + 1;
      rest := rest / 2;
    }
  }

  /** The node that takes the place of `x` when `p` and `c` change places. */
  function Other(p: HeapNode, c: HeapNode, x: HeapNode?): HeapNode? {
    if x == p then c else if x == c then p else x
  }

  lemma SwappedAt(slots: seq<HeapNode>, i: nat, j: nat, k: nat)
    requires i < |slots| && j < |slots| && k < |slots| && AllDifferent(slots)
    ensures Swapped(slots, i, j)[k] == Other(slots[i], slots[j], slots[k])
    ensures forall m: nat :: At(Swapped(slots, i, j), m) == Other(slots[i], slots[j], At(slots, m))
    ensures AllDifferent(Swapped(slots, i, j))
  {
  }

  lemma SwappedNodes(s: seq<HeapNode>, i: nat, j: nat)
    requires i < |s| && j < |s|
    ensures forall x :: x in Swapped(s, i, j) <==> x in s
  {
    var q := Swapped(s, i, j);
    forall x | x in s
      ensures x in q
    {
      var k :| 0 <= k < |s| && s[k] == x;
      assert if k == i then q[j] == x else if k == j then q[i] == x else q[k] == x;
    }
  }
}
