/** The write queue (DBImpl::Write, BuildBatchGroup and MakeRoomForWrite in db/db_impl.cc):
    the writer at the front commits for those behind it. */
module GroupCommit {
  import opened Wrappers
  import opened Coding
  import opened WriteBatches

  /** One call of Write.  A call without a batch only asks for a memtable switch. */
  datatype Request = Request(batch: Option<seq<Op>>, sync: bool)

  function BatchOf(r: Request): seq<Op> {
    if r.batch.Some? then r.batch.value else []
  }

  /** The operations of a stretch of the queue, in queue order. */
  function Joined(q: seq<Request>): seq<Op> {
    if q == [] then [] else Joined(q[..|q| - 1]) + BatchOf(q[|q| - 1])
  }

  function ByteSize(ops: seq<Op>): nat {
    HEADER + |Body(ops)|
  }

  /** How large the group may grow: a small first write is not slowed down much. */
  function MaxSize(size: nat): nat {
    if size <= 131072 then size + 131072 else 1048576
  }

  /** Where the group ends that already takes in the first `n` requests. */
  function GroupEnd(q: seq<Request>, n: nat, size: nat, maxSize: nat): (e: nat)
    requires 0 < n <= |q|
    ensures n <= e <= |q|
    decreases |q| - n
  {
    if n == |q| || (q[n].sync && !q[0].sync) then n
    else if q[n].batch.None? then GroupEnd(q, n + 1, size, maxSize)
    else
      var grown := size + ByteSize(q[n].batch.value);
      if grown > maxSize then n else GroupEnd(q, n + 1, grown, maxSize)
  }

  /** How many requests the front one commits for. */
  function GroupLength(q: seq<Request>): (e: nat)
    requires q != [] && q[0].batch.Some?
    ensures 0 < e <= |q|
  {
    var size := ByteSize(q[0].batch.value);
    GroupEnd(q, 1, size, MaxSize(size))
  }

  /** No writer that wants its data on disk is committed by one that does not wait for it. */
  predicate LedBySync(members: seq<Request>) {
    forall i :: 0 <= i < |members| && members[i].sync ==> members[0].sync
  }

  lemma {:induction false} GroupEndLed(q: seq<Request>, n: nat, size: nat, maxSize: nat)
    requires 0 < n <= |q| && LedBySync(q[..n])
    ensures LedBySync(q[..GroupEnd(q, n, size, maxSize)])
    decreases |q| - n
  {
    hide ByteSize;
    if n < |q| && (q[n].sync ==> q[0].sync) {
      LedGrows(q, n);
    }
    if n == |q| || (q[n].sync && !q[0].sync) {
    } else if q[n].batch.None? {
      GroupEndLed(q, n + 1, size, maxSize);
    } else if size + ByteSize(q[n].batch.value) <= maxSize {
      GroupEndLed(q, n + 1, size + ByteSize(q[n].batch.value), maxSize);
    }
  }

  lemma LedGrows(q: seq<Request>, n: nat)
    requires 0 < n < |q| && LedBySync(q[..n]) && (q[n].sync ==> q[0].sync)
    ensures LedBySync(q[..n + 1])
  {
    var grown := q[..n + 1];
    forall i | 0 <= i < |grown| && grown[i].sync ensures grown[0].sync {
      if i < n {
        assert q[..n][i].sync;
      }
    }
  }

  /** The group stops growing only at the end of the queue, at a sync writer that a
      non-sync one may not serve, or at a batch that would make it too large. */
  lemma {:induction false} GroupEndIsLongest(q: seq<Request>, n: nat, size: nat, maxSize: nat)
    requires 0 < n <= |q|
    ensures var e := GroupEnd(q, n, size, maxSize);
      e < |q| ==>
        || (q[e].sync && !q[0].sync)
        || (q[e].batch.Some? && size + Sizes(q, n, e) + ByteSize(q[e].batch.value) > maxSize)
    decreases |q| - n
  {
    hide ByteSize;
    if n == |q| || (q[n].sync && !q[0].sync) {
    } else if q[n].batch.None? {
      GroupEndIsLongest(q, n + 1, size, maxSize);
    } else if size + ByteSize(q[n].batch.value) <= maxSize {
      GroupEndIsLongest(q, n + 1, size + ByteSize(q[n].batch.value), maxSize);
    }
  }

  function Sizes(q: seq<Request>, a: nat, b: nat): nat
    requires a <= b <= |q|
    decreases b - a
  {
    if a == b then 0
    else (if q[a].batch.Some? then ByteSize(q[a].batch.value) else 0) + Sizes(q, a + 1, b)
  }

  lemma {:induction false} JoinedConcat(a: seq<Request>, b: seq<Request>)
    ensures Joined(a + b) == Joined(a) + Joined(b)
    decreases |b|
  {
    if b == [] {
      assert a + b == a;
    } else {
      assert (a + b)[..|a + b| - 1] == a + b[..|b| - 1];
      JoinedConcat(a, b[..|b| - 1]);
    }
  }

  lemma JoinedNext(q: seq<Request>, n: nat)
    requires n < |q|
    ensures Joined(q[..n + 1]) == Joined(q[..n]) + BatchOf(q[n])
  {
    assert q[..n + 1][..n] == q[..n];
  }

  lemma JoinedOne(q: seq<Request>)
    requires q != []
    ensures Joined(q[..1]) == BatchOf(q[0])
  {
    assert q[..1][..0] == [];
  }

  /** A batch that a caller can build: lengths fit their prefixes, the count its word. */
  predicate Sound(r: Request) {
    r.batch.Some? ==> AllFit(r.batch.value) && |r.batch.value| < TWO_TO_32
  }

  predicate AllSound(q: seq<Request>) {
    forall i :: 0 <= i < |q| ==> Sound(q[i])
  }

  /** A group of sound requests has few enough operations for the count word. */
  lemma {:induction false} GroupEndCounts(q: seq<Request>, n: nat, size: nat, maxSize: nat)
    requires 0 < n <= |q| && 2 * |Joined(q[..n])| <= size
    ensures var ops := Joined(q[..GroupEnd(q, n, size, maxSize)]);
      |ops| == |Joined(q[..n])| || 2 * |ops| <= maxSize
    decreases |q| - n
  {
    hide Joined, Body;
    if n == |q| || (q[n].sync && !q[0].sync) {
    } else if q[n].batch.None? {
      JoinedNext(q, n);
      GroupEndCounts(q, n + 1, size, maxSize);
    } else if size + ByteSize(q[n].batch.value) <= maxSize {
      JoinedNext(q, n);
      BodyIsLonger(q[n].batch.value);
      GroupEndCounts(q, n + 1, size + ByteSize(q[n].batch.value), maxSize);
    }
  }

  lemma {:induction false} JoinedFits(q: seq<Request>)
    requires AllSound(q)
    ensures AllFit(Joined(q))
  {
    if q != [] {
      JoinedFits(q[..|q| - 1]);
    }
  }

  lemma GroupIsSound(q: seq<Request>)
    requires q != [] && q[0].batch.Some? && AllSound(q)
    ensures var ops := Joined(q[..GroupLength(q)]); AllFit(ops) && |ops| < TWO_TO_32
  {
    var size := ByteSize(q[0].batch.value);
    assert q[..1][..0] == [];
    assert Joined(q[..1]) == q[0].batch.value;
    BodyIsLonger(q[0].batch.value);
    GroupEndCounts(q, 1, size, MaxSize(size));
    JoinedFits(q[..GroupLength(q)]);
  }

  /** A thread that waits in Write. */
  class Writer {
    const batch: WriteBatch?
    const sync: bool

    constructor (batch: WriteBatch?, sync: bool)
      ensures this.batch == batch && this.sync == sync
    {
      this.batch, this.sync := batch, sync;
    }
  }

  ghost predicate Stands(w: Writer, r: Request)
    reads if w.batch == null then {} else {w.batch}
  {
    && w.sync == r.sync
    && (w.batch == null <==> r.batch.None?)
    && (w.batch != null ==> w.batch.Valid() && r.batch == Some(w.batch.ops))
  }

  ghost predicate AllStand(writers: seq<Writer>, q: seq<Request>)
    reads set w <- writers | w.batch != null :: w.batch
  {
    |writers| == |q| && forall i :: 0 <= i < |q| ==> Stands(writers[i], q[i])
  }

  /** BuildBatchGroup: the batch of the first writer, or the scratch batch with the batches
      of the group one after the other.  No caller's batch changes. */
  method BuildBatchGroup(writers: seq<Writer>, tmp: WriteBatch, ghost q: seq<Request>)
    returns (length: nat, updates: WriteBatch)
    requires AllStand(writers, q) && q != [] && q[0].batch.Some?
    requires tmp.Valid() && tmp.ops == [] && forall w <- writers :: w.batch != tmp
    modifies tmp
    ensures AllStand(writers, q)
    ensures length == GroupLength(q)
    ensures updates.Valid() && updates.ops == Joined(q[..length])
    ensures updates == tmp || updates == writers[0].batch
  {
    hide Contents, Body, Joined, LedBySync, WriteBatch.Valid;
    JoinedOne(q);
    var first := writers[0];
    assert Stands(first, q[0]);
    updates := first.batch;
    var size: nat := first.batch.ByteSize();
    var maxSize: nat := if size <= 131072 then size + 131072 else 1048576;
    length := 1;
    while length < |writers|
      invariant AllStand(writers, q)
      invariant 0 < length <= |writers|
      invariant GroupEnd(q, length, size, maxSize) == GroupLength(q)
      invariant updates == tmp || (updates == first.batch && tmp.Valid() && tmp.ops == [])
      invariant updates.Valid() && updates.ops == Joined(q[..length])
    {
      var w := writers[length];
      assert Stands(w, q[length]);
      if w.sync && !first.sync {
        break;
      }
      JoinedNext(q, length);
      if w.batch != null {
        size := size + w.batch.ByteSize();
        if size > maxSize {
          break;
        }
        if updates == first.batch {
          updates := tmp;
          updates.Append(first.batch);
        }
        updates.Append(w.batch);
        assert updates.ops == Joined(q[..length]) + w.batch.ops;
      }
      length := length + 1;
    }
  }
}
