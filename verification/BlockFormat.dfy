/** Prefix-compressed blocks and how they are built (table/block_builder.cc). */
module BlockFormat {
  import opened DbFormat
  import opened Coding

  datatype KeyValue = KeyValue(key: Bytes, value: Bytes)

  /** What a block holds: its entries; how many bytes each key shares with the one before;
      where each entry starts, with the end of the last; which entries are restart points. */
  datatype Layout = Layout(entries: seq<KeyValue>, shared: seq<nat>, offsets: seq<nat>, heads: seq<nat>)

  function EncodeEntry(shared: nat, e: KeyValue): (b: Bytes)
    requires shared <= |e.key|
    ensures |b| >= 3
  {
    Varint(Low32(shared)) + Varint(Low32(|e.key| - shared)) + Varint(Low32(|e.value|)) + e.key[shared..] + e.value
  }

  /** The key starts with that much of the key before it. */
  predicate Shares(entries: seq<KeyValue>, i: nat, shared: nat)
    requires i < |entries|
  {
    && shared <= |entries[i].key|
    && (shared > 0 ==> i > 0 && shared <= |entries[i - 1].key| && entries[i].key[..shared] == entries[i - 1].key[..shared])
  }

  /** Entry `i` lies in the buffer between its offset and the next. */
  predicate EntryAt(buffer: Bytes, l: Layout, i: nat)
    requires i < |l.entries| == |l.shared| == |l.offsets| - 1
  {
    && Shares(l.entries, i, l.shared[i])
    && l.offsets[i] < l.offsets[i + 1] <= |buffer|
    && buffer[l.offsets[i]..l.offsets[i + 1]] == EncodeEntry(l.shared[i], l.entries[i])
  }

  predicate HeadsOk(l: Layout, interval: nat)
    requires |l.entries| == |l.shared| == |l.offsets| - 1
  {
    && l.heads != [] && l.heads[0] == 0
    && (forall j :: 0 <= j < |l.heads| ==> Head(l, j))
    && (forall j :: 0 <= j < |l.heads| - 1 ==> Apart(l, j, interval))
  }

  /** A restart point is an entry whose key is whole. */
  predicate Head(l: Layout, j: nat)
    requires j < |l.heads| && |l.entries| == |l.shared|
  {
    && l.heads[j] <= |l.entries|
    && (l.heads[j] < |l.entries| ==> l.shared[l.heads[j]] == 0)
    && (j > 0 ==> l.heads[j] < |l.entries|)
  }

  predicate Apart(l: Layout, j: nat, interval: nat)
    requires j + 1 < |l.heads|
  {
    l.heads[j + 1] == l.heads[j] + interval
  }

  predicate Encodes(buffer: Bytes, l: Layout, interval: nat) {
    && |l.entries| == |l.shared| == |l.offsets| - 1
    && l.offsets[0] == 0 && l.offsets[|l.entries|] == |buffer|
    && (forall i :: 0 <= i < |l.entries| ==> EntryAt(buffer, l, i))
    && HeadsOk(l, interval)
  }

  /** Keys are compressed as far as they can be: whole at restart points only. */
  ghost predicate Compressed(l: Layout)
    requires |l.entries| == |l.shared|
  {
    forall i :: 0 <= i < |l.entries| ==> SharesAll(l, i)
  }

  ghost predicate SharesAll(l: Layout, i: nat)
    requires i < |l.entries| == |l.shared|
  {
    if i in l.heads then l.shared[i] == 0
    else i > 0 && l.shared[i] == Common(l.entries[i - 1].key, l.entries[i].key)
  }

  /** PutFixed32 of a number, cut to 32 bits. */
  function Word(w: nat): (b: Bytes)
    ensures |b| == 4
  {
    EncodeFixed32(Low32(w))
  }

  lemma WordRoundTrip(w: nat)
    requires w < TWO_TO_32
    ensures DecodeFixed32(Word(w)) == w
  {
    hide DecodeFixed32, EncodeFixed32;
    FixedRoundTrip(w);
  }

  /** The restart array and its length. */
  function Words(ws: seq<nat>): (b: Bytes)
    ensures |b| == 4 * |ws|
  {
    if ws == [] then [] else Words(ws[..|ws| - 1]) + Word(ws[|ws| - 1])
  }

  /** Four bytes from a place on. */
  function Four(b: Bytes, a: nat): (w: Bytes)
    requires a + 4 <= |b|
    ensures |w| == 4
  {
    b[a..a + 4]
  }

  lemma {:induction false} WordAt(ws: seq<nat>, j: nat)
    requires j < |ws|
    ensures Four(Words(ws), 4 * j) == Word(ws[j])
    decreases |ws|
  {
    hide Word;
    var n := |ws| - 1;
    if j < n {
      WordAt(ws[..n], j);
      assert Words(ws)[4 * j..4 * j + 4] == Words(ws[..n])[4 * j..4 * j + 4];
    }
  }

  /** BlockBuilder. */
  class BlockBuilder {
    const interval: nat
    var buffer: Bytes
    var restarts: seq<nat>
    var counter: nat
    var finished: bool
    var lastKey: Bytes
    ghost var layout: Layout

    ghost predicate Valid()
      reads this
    {
      interval >= 1 && Built(buffer, restarts, counter, lastKey, layout, interval)
    }

    constructor (interval: nat)
      requires interval >= 1
      ensures Valid() && !finished && layout.entries == [] && this.interval == interval
    {
      this.interval := interval;
      buffer, restarts, counter, finished, lastKey := [], [0], 0, false, [];
      layout := Layout([], [], [0], [0]);
    }

    predicate Empty()
      requires Valid()
      reads this
      ensures Empty() <==> layout.entries == []
    {
      assert layout.entries != [] ==> EntryAt(buffer, layout, |layout.entries| - 1);
      buffer == []
    }

    function CurrentSizeEstimate(): nat
      reads this
    {
      |buffer| + 4 * |restarts| + 4
    }

    method Reset()
      requires interval >= 1
      modifies this
      ensures Valid() && !finished && layout.entries == []
    {
      buffer, restarts, counter, finished, lastKey := [], [0], 0, false, [];
      layout := Layout([], [], [0], [0]);
    }

    /** How much of the key the last one shares: all that it can. */
    method SharedWithLast(key: Bytes) returns (shared: nat)
      ensures shared == Common(lastKey, key)
    {
      shared := 0;
      var minLength := if |lastKey| < |key| then |lastKey| else |key|;
      while shared < minLength && lastKey[shared] == key[shared]
        invariant shared <= minLength
        invariant lastKey[..shared] == key[..shared]
      {
        shared := shared + 1;
      }
      CommonIs(lastKey, key, shared);
    }

    /** Add: the key without what it shares with the last one, unless it is time for a
        restart point. */
    method Add(key: Bytes, value: Bytes)
      requires Valid() && !finished
      modifies this
      ensures Valid() && !finished && layout.entries == old(layout.entries) + [KeyValue(key, value)]
    {
      hide Encodes, Varint, RestartsAt, Compressed;
      var shared := 0;
      ghost var l := layout;
      if counter < interval {
        shared := SharedWithLast(key);
        EntryAdded(buffer, restarts, counter, lastKey, l, interval, KeyValue(key, value), shared);
      } else {
        RestartAdded(buffer, restarts, counter, lastKey, l, interval, KeyValue(key, value));
        restarts := restarts + [|buffer|];
        counter := 0;
        layout := layout.(heads := l.heads + [|l.entries|]);
      }
      var a := EncodeVarint32(Low32(shared));
      var b := EncodeVarint32(Low32(|key| - shared));
      var c := EncodeVarint32(Low32(|value|));
      buffer := buffer + (a + b + c + key[shared..] + value);
      layout := Layout(l.entries + [KeyValue(key, value)], l.shared + [shared], l.offsets + [|buffer|], layout.heads);
      assert lastKey[..shared] + key[shared..] == key;
      lastKey := lastKey[..shared] + key[shared..];
      counter := counter + 1;
    }

    /** Finish: the restart array follows the entries. */
    method Finish() returns (contents: Bytes)
      requires Valid() && !finished
      modifies this
      ensures contents == old(buffer) + Words(restarts + [|restarts|]) == buffer
      ensures finished && layout == old(layout) && restarts == old(restarts)
    {
      hide Built, Word;
      for i := 0 to |restarts|
        invariant restarts == old(restarts) && layout == old(layout)
        invariant buffer == old(buffer) + Words(restarts[..i])
      {
        assert restarts[..i + 1][..i] == restarts[..i];
        buffer := buffer + Word(restarts[i]);
      }
      assert restarts[..|restarts|] == restarts;
      assert (restarts + [|restarts|])[..|restarts|] == restarts;
      buffer := buffer + Word(|restarts|);
      finished := true;
      contents := buffer;
    }
  }

  predicate RestartsAt(restarts: seq<nat>, l: Layout) {
    && |restarts| == |l.heads|
    && forall j :: 0 <= j < |restarts| ==> l.heads[j] < |l.offsets| && restarts[j] == l.offsets[l.heads[j]]
  }

  ghost predicate Built(buffer: Bytes, restarts: seq<nat>, counter: nat, lastKey: Bytes, l: Layout, interval: nat) {
    && Encodes(buffer, l, interval)
    && RestartsAt(restarts, l)
    && Compressed(l)
    && l.heads[|l.heads| - 1] + counter == |l.entries| && counter <= interval
    && lastKey == (if l.entries == [] then [] else l.entries[|l.entries| - 1].key)
  }

  lemma EntryAdded(buffer: Bytes, restarts: seq<nat>, counter: nat, lastKey: Bytes, l: Layout, interval: nat,
                   e: KeyValue, shared: nat)
    requires Built(buffer, restarts, counter, lastKey, l, interval) && counter < interval
    requires shared == Common(lastKey, e.key)
    ensures var b := buffer + EncodeEntry(shared, e);
      Built(b, restarts, counter + 1, e.key, Layout(l.entries + [e], l.shared + [shared], l.offsets + [|b|], l.heads), interval)
  {
    hide EncodeEntry;
    var b := buffer + EncodeEntry(shared, e);
    assert Head(l, |l.heads| - 1);
    EntriesAdded(buffer, l, interval, e, shared, l.heads);
    StillCompressed(l, interval, counter, e, shared, |b|, l.heads);
  }

  lemma StillCompressed(l: Layout, interval: nat, counter: nat, e: KeyValue, shared: nat, end: nat, heads: seq<nat>)
    requires |l.entries| == |l.shared| == |l.offsets| - 1 && HeadsOk(l, interval) && Compressed(l)
    requires l.heads[|l.heads| - 1] + counter == |l.entries| && counter <= interval
    requires if counter < interval then
        heads == l.heads && shared == if l.entries == [] then 0 else Common(l.entries[|l.entries| - 1].key, e.key)
      else heads == l.heads + [|l.entries|] && shared == 0
    ensures Compressed(Layout(l.entries + [e], l.shared + [shared], l.offsets + [end], heads))
  {
    var m := Layout(l.entries + [e], l.shared + [shared], l.offsets + [end], heads);
    var n := |l.entries|;
    forall i | 0 <= i <= n
      ensures SharesAll(m, i)
    {
      if i < n {
        assert SharesAll(l, i);
      } else if counter < interval && n in l.heads {
        var j :| 0 <= j < |l.heads| && l.heads[j] == n;
        assert Head(l, j);
      }
    }
  }

  lemma RestartAdded(buffer: Bytes, restarts: seq<nat>, counter: nat, lastKey: Bytes, l: Layout, interval: nat, e: KeyValue)
    requires Built(buffer, restarts, counter, lastKey, l, interval) && counter == interval >= 1
    ensures var b := buffer + EncodeEntry(0, e);
      Built(b, restarts + [|buffer|], 1, e.key,
            Layout(l.entries + [e], l.shared + [0], l.offsets + [|b|], l.heads + [|l.entries|]), interval)
  {
    hide EncodeEntry;
    EntriesAdded(buffer, l, interval, e, 0, l.heads + [|l.entries|]);
    StillCompressed(l, interval, counter, e, 0, |buffer + EncodeEntry(0, e)|, l.heads + [|l.entries|]);
  }

  lemma EntriesAdded(buffer: Bytes, l: Layout, interval: nat, e: KeyValue, shared: nat, heads: seq<nat>)
    requires Encodes(buffer, l, interval) && Shares(l.entries + [e], |l.entries|, shared)
    requires heads == l.heads || (heads == l.heads + [|l.entries|] &&
      l.heads[|l.heads| - 1] + interval == |l.entries| && shared == 0)
    requires heads == l.heads && l.heads[|l.heads| - 1] == |l.entries| ==> shared == 0
    requires interval >= 1
    ensures var b := buffer + EncodeEntry(shared, e);
      Encodes(b, Layout(l.entries + [e], l.shared + [shared], l.offsets + [|b|], heads), interval)
  {
    hide EncodeEntry;
    var n := |l.entries|;
    var b := buffer + EncodeEntry(shared, e);
    var m := Layout(l.entries + [e], l.shared + [shared], l.offsets + [|b|], heads);
    forall i | 0 <= i < |m.entries| ensures EntryAt(b, m, i) {
      if i < n {
        assert EntryAt(buffer, l, i);
        assert b[l.offsets[i]..l.offsets[i + 1]] == buffer[l.offsets[i]..l.offsets[i + 1]];
      }
    }
    forall j | 0 <= j < |heads| ensures Head(m, j) {
      if j < |l.heads| {
        assert Head(l, j);
      }
    }
    forall j | 0 <= j < |heads| - 1 ensures Apart(m, j, interval) {
      if j < |l.heads| - 1 {
        assert Apart(l, j, interval);
      }
    }
  }
}
