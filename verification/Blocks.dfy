/** Reading a prefix-compressed block: sequential scans in both directions and binary search
    over the restart points (table/block.cc). */
module Blocks {
  import opened Wrappers
  import opened DbFormat
  import opened Coding
  import opened BlockFormat
  import opened Sequences

  datatype Decoded = Decoded(shared: nat, nonShared: nat, valueLength: nat, size: nat)

  /** DecodeEntry: the three lengths at the front of `p` and the bytes they take, or nothing
      if the entry would not end within `p`. */
  function DecodeEntry(p: Bytes): Option<Decoded> {
    if |p| < 3 then None
    else if p[0] < 128 && p[1] < 128 && p[2] < 128 then
      Bounded(p, Decoded(p[0] as nat, p[1] as nat, p[2] as nat, 3))
    else
      DecodeLengths(p)
  }

  function DecodeLengths(p: Bytes): Option<Decoded> {
    var a := ReadVarint(p, 0, 28);
    if a.None? then None
    else
      var b := ReadVarint(p[a.value.size..], 0, 28);
      if b.None? then None
      else
        var c := ReadVarint(p[a.value.size + b.value.size..], 0, 28);
        if c.None? then None
        else
          Bounded(p, Decoded(a.value.value % TWO_TO_32, b.value.value % TWO_TO_32, c.value.value % TWO_TO_32,
                             a.value.size + b.value.size + c.value.size))
  }

  /** The sum of the lengths is a 32-bit word. */
  function Bounded(p: Bytes, d: Decoded): Option<Decoded> {
    if |p| - d.size < (d.nonShared + d.valueLength) % TWO_TO_32 then None else Some(d)
  }

  /** Over any bytes: an entry that is accepted ends within them, if and only if the sum of
      its lengths did not wrap around. */
  lemma EndsWithinIff(p: Bytes)
    requires |p| < TWO_TO_32 && DecodeEntry(p).Some?
    ensures var d := DecodeEntry(p).value;
      d.size + d.nonShared + d.valueLength <= |p| <==> d.nonShared + d.valueLength < TWO_TO_32
  {
    assert Bounded(p, DecodeEntry(p).value).Some?;
  }

  /** What was encoded is decoded, whatever follows. */
  lemma DecodesEntry(shared: nat, e: KeyValue, rest: Bytes)
    requires shared <= |e.key| < TWO_TO_32 && |EncodeEntry(shared, e)| < TWO_TO_32
    ensures var d := DecodeEntry(EncodeEntry(shared, e) + rest);
      && d.Some? && d.value.shared == shared && d.value.nonShared == |e.key| - shared && d.value.valueLength == |e.value|
      && d.value.size + d.value.nonShared + d.value.valueLength == |EncodeEntry(shared, e)|
  {
    hide DecodeLengths, Varint;
    var n, v := |e.key| - shared, |e.value|;
    var tail := e.key[shared..] + e.value + rest;
    var p := Varint(shared) + (Varint(n) + (Varint(v) + tail));
    Regroup(Varint(shared), Varint(n), Varint(v), e.key[shared..], e.value, rest);
    assert EncodeEntry(shared, e) + rest == p;
    if p[0] < 128 && p[1] < 128 && p[2] < 128 {
      DecodesShort(shared, n, v, tail);
    } else {
      DecodesLong(shared, n, v, tail);
      assert DecodeEntry(p) == DecodeLengths(p);
    }
  }

  lemma Regroup(a: Bytes, b: Bytes, c: Bytes, d: Bytes, v: Bytes, rest: Bytes)
    ensures a + b + c + d + v + rest == a + (b + (c + (d + v + rest)))
  {
  }

  lemma DecodesShort(s: nat, n: nat, v: nat, tail: Bytes)
    requires s < TWO_TO_32 && n < TWO_TO_32 && v < TWO_TO_32 && n + v < TWO_TO_32 && n + v <= |tail|
    requires var p := Varint(s) + (Varint(n) + (Varint(v) + tail)); p[0] < 128 && p[1] < 128 && p[2] < 128
    ensures DecodeEntry(Varint(s) + (Varint(n) + (Varint(v) + tail))) ==
      Some(Decoded(s, n, v, |Varint(s)| + |Varint(n)| + |Varint(v)|))
  {
    ShortVarint(s, Varint(n) + (Varint(v) + tail));
    ShortVarint(n, Varint(v) + tail);
    ShortVarint(v, tail);
    hide DecodeLengths;
  }

  lemma DecodesLong(s: nat, n: nat, v: nat, tail: Bytes)
    requires s < TWO_TO_32 && n < TWO_TO_32 && v < TWO_TO_32 && n + v < TWO_TO_32 && n + v <= |tail|
    ensures DecodeLengths(Varint(s) + (Varint(n) + (Varint(v) + tail))) ==
      Some(Decoded(s, n, v, |Varint(s)| + |Varint(n)| + |Varint(v)|))
  {
    hide Varint, ReadVarint, DecodeLengths;
    ReadsThree(s, n, v, tail);
    var p := Varint(s) + (Varint(n) + (Varint(v) + tail));
    assert |p| == |Varint(s)| + |Varint(n)| + |Varint(v)| + |tail|;
    LengthsDecoded(p, Parsed(s, |Varint(s)|), Parsed(n, |Varint(n)|), Parsed(v, |Varint(v)|));
  }

  lemma ReadsThree(s: nat, n: nat, v: nat, tail: Bytes)
    requires s < TWO_TO_32 && n < TWO_TO_32 && v < TWO_TO_32
    ensures var p := Varint(s) + (Varint(n) + (Varint(v) + tail));
      && ReadVarint(p, 0, 28) == Some(Parsed(s, |Varint(s)|))
      && ReadVarint(p[|Varint(s)|..], 0, 28) == Some(Parsed(n, |Varint(n)|))
      && ReadVarint(p[|Varint(s)| + |Varint(n)|..], 0, 28) == Some(Parsed(v, |Varint(v)|))
  {
    hide ReadVarint, Varint;
    var a, b, c := Varint(s), Varint(n), Varint(v);
    var r := c + tail;
    var q := b + r;
    ReadsOne(s, q);
    ReadsOne(n, r);
    ReadsOne(v, tail);
    Drops(a, b, r);
  }

  lemma ReadsOne(v: nat, rest: Bytes)
    requires v < TWO_TO_32
    ensures ReadVarint(Varint(v) + rest, 0, 28) == Some(Parsed(v, |Varint(v)|))
  {
    VarintLength32(v);
    VarintRoundTrip(v, rest, 0, 28);
  }

  lemma LengthsDecoded(p: Bytes, a: Parsed, b: Parsed, c: Parsed)
    requires ReadVarint(p, 0, 28) == Some(a) && ReadVarint(p[a.size..], 0, 28) == Some(b)
    requires a.size + b.size <= |p| && ReadVarint(p[a.size + b.size..], 0, 28) == Some(c)
    requires a.value < TWO_TO_32 && b.value + c.value < TWO_TO_32
    requires a.size + b.size + c.size + b.value + c.value <= |p|
    ensures DecodeLengths(p) == Some(Decoded(a.value, b.value, c.value, a.size + b.size + c.size))
  {
    hide ReadVarint;
  }

  lemma Drops(a: Bytes, b: Bytes, rest: Bytes)
    ensures (a + (b + rest))[|a|..] == b + rest && (a + (b + rest))[|a| + |b|..] == rest
  {
  }

  lemma ShortVarint(v: nat, rest: Bytes)
    ensures (Varint(v) + rest)[0] < 128 ==> Varint(v) == [v as Byte]
  {
  }

  // ----- what is in the file

  predicate RestartWord(data: Bytes, restarts: nat, l: Layout, j: nat) {
    && j < |l.heads| && l.heads[j] < |l.offsets| && restarts + 4 * j + 4 <= |data|
    && DecodeFixed32(Four(data, restarts + 4 * j)) == l.offsets[l.heads[j]]
  }

  /** The bytes of a finished block: entries up to `restarts`, then the restart array. */
  ghost predicate Formed(data: Bytes, restarts: nat, numRestarts: nat, l: Layout, interval: nat) {
    && interval >= 1
    && restarts <= |data| < TWO_TO_32
    && Encodes(data[..restarts], l, interval)
    && (forall i :: 0 <= i < |l.entries| ==> |l.entries[i].key| < TWO_TO_32)
    && numRestarts == |l.heads|
    && (forall j :: 0 <= j < numRestarts ==> RestartWord(data, restarts, l, j))
  }

  lemma {:induction false} OffsetsAscend(data: Bytes, l: Layout, interval: nat, a: nat, b: nat)
    requires Encodes(data, l, interval) && a <= b <= |l.entries|
    ensures l.offsets[a] <= l.offsets[b] && (a < b ==> l.offsets[a] < l.offsets[b])
    decreases b - a
  {
    hide EncodeEntry, HeadsOk;
    if a < b {
      OffsetsAscend(data, l, interval, a, b - 1);
      assert EntryAt(data, l, b - 1);
    }
  }

  lemma {:induction false} HeadsAscend(l: Layout, interval: nat, a: nat, b: nat)
    requires |l.entries| == |l.shared| == |l.offsets| - 1 && HeadsOk(l, interval) && interval >= 1 && a < b < |l.heads|
    ensures l.heads[a] < l.heads[b]
    decreases b - a
  {
    assert Apart(l, b - 1, interval);
    if a < b - 1 {
      HeadsAscend(l, interval, a, b - 1);
    }
  }

  /** What decoding at the start of entry `i` yields. */
  lemma EntryDecodes(data: Bytes, restarts: nat, numRestarts: nat, l: Layout, interval: nat, i: nat)
    requires Formed(data, restarts, numRestarts, l, interval) && i < |l.entries|
    ensures l.offsets[i] < l.offsets[i + 1] <= restarts && l.shared[i] <= |l.entries[i].key|
    ensures var d := DecodeEntry(data[l.offsets[i]..restarts]); var e := l.entries[i]; var o := l.offsets[i];
      && d.Some? && d.value.shared == l.shared[i]
      && var k := o + d.value.size; var v := k + d.value.nonShared;
      && v + d.value.valueLength == l.offsets[i + 1]
      && data[k..v] == e.key[l.shared[i]..]
      && data[v..l.offsets[i + 1]] == e.value
  {
    hide EncodeEntry, DecodeEntry, HeadsOk;
    var o, next, e := l.offsets[i], l.offsets[i + 1], l.entries[i];
    assert EntryAt(data[..restarts], l, i);
    var b := EncodeEntry(l.shared[i], e);
    SliceSplits(data, o, next, restarts);
    DecodesEntry(l.shared[i], e, data[next..restarts]);
    var d := DecodeEntry(b + data[next..restarts]).value;
    EntryTail(l.shared[i], e, d.size);
    PieceOfSlice(data, o, next, d.size, d.size + d.nonShared);
    PieceOfSlice(data, o, next, d.size + d.nonShared, next - o);
  }

  lemma SliceSplits(data: Bytes, a: nat, b: nat, c: nat)
    requires a <= b <= c <= |data|
    ensures data[..c][a..b] == data[a..b] && data[a..c] == data[a..b] + data[b..c]
  {
  }

  lemma PieceOfSlice(data: Bytes, a: nat, b: nat, i: nat, j: nat)
    requires a <= b <= |data| && i <= j <= b - a
    ensures data[a..b][i..j] == data[a + i..a + j]
  {
    SliceTake(data, a, b, j);
    SliceDrop(data, a, a + j, i);
    assert data[a..b][i..j] == data[a..b][..j][i..];
  }

  lemma EntryTail(shared: nat, e: KeyValue, size: nat)
    requires shared <= |e.key| && size + (|e.key| - shared) + |e.value| == |EncodeEntry(shared, e)|
    ensures var b := EncodeEntry(shared, e); var v := size + |e.key| - shared;
      && b[size..v] == e.key[shared..] && b[v..|b|] == e.value
  {
    hide Varint;
    var h := Varint(Low32(shared)) + Varint(Low32(|e.key| - shared)) + Varint(Low32(|e.value|));
    assert |h| == size;
    assert EncodeEntry(shared, e) == h + e.key[shared..] + e.value;
  }

  /** Block::Iter. */
  class Iter {
    const data: Bytes
    const restarts: nat
    const numRestarts: nat
    const less: (Bytes, Bytes) -> bool
    ghost const layout: Layout
    ghost const interval: nat
    var current: nat
    var restartIndex: nat
    var key: Bytes
    var valueStart: nat
    var valueLength: nat

    ghost predicate Reads() {
      Formed(data, restarts, numRestarts, layout, interval)
    }

    /** `restartIndex` names the stretch that entry `k` is in; at its very start, the
        stretch before will do too. */
    ghost predicate InStretch(k: nat)
      reads this
    {
      && restartIndex < numRestarts == |layout.heads|
      && layout.heads[restartIndex] <= k
      && (restartIndex + 1 < numRestarts ==> k <= layout.heads[restartIndex + 1])
    }

    /** The iterator is at entry `k`, or past all of them. */
    ghost predicate StandsAt(k: nat)
      reads this
    {
      && Reads() && k <= |layout.entries|
      && (k == |layout.entries| ==> current == restarts && restartIndex == numRestarts)
      && (k < |layout.entries| ==>
            && current == layout.offsets[k] && InStretch(k)
            && key == layout.entries[k].key
            && valueStart + valueLength == layout.offsets[k + 1]
            && valueStart + valueLength <= |data| && data[valueStart..valueStart + valueLength] == layout.entries[k].value)
    }

    /** The next entry to be parsed is `k`. */
    ghost predicate Before(k: nat)
      reads this
    {
      && Reads() && k <= |layout.entries|
      && valueStart + valueLength == layout.offsets[k]
      && restartIndex < numRestarts && layout.heads[restartIndex] <= k
      && (k < |layout.entries| && layout.shared[k] > 0 ==> k > 0 && key == layout.entries[k - 1].key)
    }

    constructor (data: Bytes, restarts: nat, numRestarts: nat, less: (Bytes, Bytes) -> bool,
                 ghost layout: Layout, ghost interval: nat)
      requires Formed(data, restarts, numRestarts, layout, interval)
      ensures StandsAt(|layout.entries|) && this.layout == layout && this.less == less
    {
      this.data, this.restarts, this.numRestarts, this.less := data, restarts, numRestarts, less;
      this.layout, this.interval := layout, interval;
      current, restartIndex, key, valueStart, valueLength := restarts, numRestarts, [], 0, 0;
    }

    predicate Valid()
      reads this
    {
      current < restarts
    }

    lemma ValidIff(k: nat)
      requires StandsAt(k)
      ensures Valid() <==> k < |layout.entries|
      ensures k < |layout.entries| ==> Current() == layout.entries[k]
    {
      hide Encodes;
      OffsetsEnd(data, restarts, numRestarts, layout, interval, k);
    }

    /** key() and value(). */
    function Current(): KeyValue
      requires valueStart + valueLength <= |data|
      reads this
    {
      KeyValue(key, data[valueStart..valueStart + valueLength])
    }

    function NextEntryOffset(): nat
      reads this
    {
      valueStart + valueLength
    }

    function GetRestartPoint(index: nat): (o: nat)
      requires Reads() && index < numRestarts
      ensures layout.heads[index] < |layout.offsets| && o == layout.offsets[layout.heads[index]]
    {
      assert RestartWord(data, restarts, layout, index);
      DecodeFixed32(Four(data, restarts + 4 * index))
    }

    method SeekToRestartPoint(index: nat)
      requires Reads() && index < numRestarts
      modifies this
      ensures Before(layout.heads[index]) && restartIndex == index && key == [] && valueLength == 0
    {
      assert Head(layout, index);
      key := [];
      restartIndex := index;
      valueStart, valueLength := GetRestartPoint(index), 0;
    }

    /** ParseNextKey: on to the next entry, rebuilding its key from the last one. */
    method ParseNextKey(ghost k: nat) returns (ok: bool)
      requires Before(k)
      modifies this
      ensures ok == (k < |layout.entries|) && StandsAt(k)
    {
      hide DecodeEntry, Encodes;
      current := NextEntryOffset();
      OffsetsEnd(data, restarts, numRestarts, layout, interval, k);
      if current >= restarts {
        current, restartIndex := restarts, numRestarts;
        return false;
      }
      EntryDecodes(data, restarts, numRestarts, layout, interval, k);
      SharesPrevious(data, restarts, numRestarts, layout, interval, k);
      var d := DecodeEntry(data[current..restarts]);
      if d.None? || |key| < d.value.shared {
        // CorruptionError, which no block from BlockBuilder meets.
        assert false;
      }
      var p := current + d.value.size;
      key := key[..d.value.shared] + data[p..p + d.value.nonShared];
      valueStart, valueLength := p + d.value.nonShared, d.value.valueLength;
      AdvanceRestartIndex(k);
      ok := true;
    }

    method AdvanceRestartIndex(ghost k: nat)
      requires Reads() && k < |layout.entries| && current == layout.offsets[k]
      requires restartIndex < numRestarts && layout.heads[restartIndex] <= k
      modifies this`restartIndex
      ensures InStretch(k)
    {
      while restartIndex + 1 < numRestarts && GetRestartPoint(restartIndex + 1) < current
        invariant restartIndex < numRestarts && layout.heads[restartIndex] <= k
        decreases numRestarts - restartIndex
      {
        OffsetsOrder(data, restarts, numRestarts, layout, interval, layout.heads[restartIndex + 1], k);
        restartIndex := restartIndex + 1;
      }
      if restartIndex + 1 < numRestarts {
        OffsetsOrder(data, restarts, numRestarts, layout, interval, layout.heads[restartIndex + 1], k);
      }
    }

    method SeekToFirst()
      requires Reads()
      modifies this
      ensures StandsAt(0)
    {
      SeekToRestartPoint(0);
      var ok := ParseNextKey(0);
    }

    method Next(ghost k: nat)
      requires StandsAt(k) && k < |layout.entries|
      modifies this
      ensures StandsAt(k + 1)
    {
      SharesPrevious(data, restarts, numRestarts, layout, interval, k + 1);
      var ok := ParseNextKey(k + 1);
    }

    /** Back to the last restart point before the entry, then forward up to it. */
    method Prev(ghost k: nat)
      requires StandsAt(k) && k < |layout.entries|
      modifies this
      ensures StandsAt(if k == 0 then |layout.entries| else k - 1)
    {
      hide Encodes;
      var original := current;
      while GetRestartPoint(restartIndex) >= original
        invariant restartIndex < numRestarts && Reads() && current == original
        decreases restartIndex
      {
        OffsetsOrder(data, restarts, numRestarts, layout, interval, layout.heads[restartIndex], k);
        if restartIndex == 0 {
          HeadZero(data, restarts, numRestarts, layout, interval, k);
          current, restartIndex := restarts, numRestarts;
          return;
        }
        restartIndex := restartIndex - 1;
      }
      OffsetsOrder(data, restarts, numRestarts, layout, interval, layout.heads[restartIndex], k);
      SeekToRestartPoint(restartIndex);
      ghost var j := layout.heads[restartIndex];
      var ok := ParseNextKey(j);
      OffsetsOrder(data, restarts, numRestarts, layout, interval, j + 1, k);
      while ok && NextEntryOffset() < original
        invariant j < k && StandsAt(j) && ok
        invariant NextEntryOffset() < original <==> j + 1 < k
        decreases k - j
      {
        SharesPrevious(data, restarts, numRestarts, layout, interval, j + 1);
        ok := ParseNextKey(j + 1);
        j := j + 1;
        OffsetsOrder(data, restarts, numRestarts, layout, interval, j + 1, k);
      }
    }

    method SeekToLast()
      requires Reads()
      modifies this
      ensures StandsAt(if layout.entries == [] then 0 else |layout.entries| - 1)
    {
      hide Encodes;
      HeadZero(data, restarts, numRestarts, layout, interval, 0);
      SeekToRestartPoint(numRestarts - 1);
      ghost var j := layout.heads[numRestarts - 1];
      LastHead(data, restarts, numRestarts, layout, interval);
      var ok := ParseNextKey(j);
      if ok {
        OffsetsEnd(data, restarts, numRestarts, layout, interval, j + 1);
      }
      while ok && NextEntryOffset() < restarts
        invariant StandsAt(j) && (ok <==> layout.entries != []) && (ok ==> j < |layout.entries|)
        invariant ok ==> (NextEntryOffset() < restarts <==> j + 1 < |layout.entries|)
        decreases |layout.entries| - j
      {
        SharesPrevious(data, restarts, numRestarts, layout, interval, j + 1);
        ok := ParseNextKey(j + 1);
        j := j + 1;
        OffsetsEnd(data, restarts, numRestarts, layout, interval, j + 1);
      }
    }

    /** The key at a restart point, read in place. */
    function MidKey(index: nat): (k: Bytes)
      requires Reads() && index < numRestarts && layout.heads[index] < |layout.entries|
      ensures k == layout.entries[layout.heads[index]].key
    {
      EntryDecodes(data, restarts, numRestarts, layout, interval, layout.heads[index]);
      assert Head(layout, index);
      var o := GetRestartPoint(index);
      var d := DecodeEntry(data[o..restarts]).value;
      data[o + d.size..o + d.size + d.nonShared]
    }

    /** Binary search for the last restart point with a key below the target. */
    method FindRestart(target: Bytes) returns (left: nat)
      requires Reads() && Monotone(layout.entries, less, target)
      ensures left < numRestarts
      ensures left > 0 ==> layout.heads[left] < |layout.entries| && less(layout.entries[layout.heads[left]].key, target)
      ensures left + 1 < numRestarts ==>
        layout.heads[left + 1] < |layout.entries| && !less(layout.entries[layout.heads[left + 1]].key, target)
    {
      left := 0;
      var right := numRestarts - 1;
      while left < right
        invariant 0 <= left <= right < numRestarts
        invariant left > 0 ==> layout.heads[left] < |layout.entries| && less(layout.entries[layout.heads[left]].key, target)
        invariant right + 1 < numRestarts ==>
          layout.heads[right + 1] < |layout.entries| && !less(layout.entries[layout.heads[right + 1]].key, target)
        decreases right - left
      {
        var mid := (left + right + 1) / 2;
        assert Head(layout, mid);
        if less(MidKey(mid), target) {
          left := mid;
        } else {
          right := mid - 1;
        }
      }
    }

    /** Seek: to the first key that is not below the target. */
    method Seek(target: Bytes) returns (ghost k: nat)
      requires Reads() && Monotone(layout.entries, less, target)
      modifies this
      ensures StandsAt(k)
      ensures k == LowerBound(layout.entries, less, target)
    {
      hide Encodes;
      var left := FindRestart(target);
      SeekToRestartPoint(left);
      k := layout.heads[left];
      HeadZero(data, restarts, numRestarts, layout, interval, 0);
      assert AllBelow(layout.entries, less, target, k);
      while true
        invariant Before(k) && AllBelow(layout.entries, less, target, k)
        decreases |layout.entries| - k
      {
        var ok := ParseNextKey(k);
        if !ok || !less(key, target) {
          LowerBoundIs(layout.entries, less, target, k);
          return;
        }
        SharesPrevious(data, restarts, numRestarts, layout, interval, k + 1);
        k := k + 1;
      }
    }
  }

  /** Keys below the target come before the others. */
  ghost predicate Monotone(es: seq<KeyValue>, less: (Bytes, Bytes) -> bool, target: Bytes) {
    forall i, j :: 0 <= i < j < |es| && less(es[j].key, target) ==> less(es[i].key, target)
  }

  ghost predicate AllBelow(es: seq<KeyValue>, less: (Bytes, Bytes) -> bool, target: Bytes, k: nat) {
    k <= |es| && forall i :: 0 <= i < k ==> less(es[i].key, target)
  }

  /** Linear search: the first entry whose key is not below the target. */
  function LowerBound(es: seq<KeyValue>, less: (Bytes, Bytes) -> bool, target: Bytes): (k: nat)
    ensures k <= |es|
  {
    if es == [] then 0
    else
      var k := LowerBound(es[..|es| - 1], less, target);
      if k < |es| - 1 || !less(es[|es| - 1].key, target) then k else |es|
  }

  lemma {:induction false} LowerBoundIs(es: seq<KeyValue>, less: (Bytes, Bytes) -> bool, target: Bytes, k: nat)
    requires AllBelow(es, less, target, k) && (k < |es| ==> !less(es[k].key, target))
    ensures LowerBound(es, less, target) == k
    decreases |es|
  {
    if es != [] {
      var n := |es| - 1;
      LowerBoundIs(es[..n], less, target, if k <= n then k else n);
    }
  }

  lemma {:induction false} LowerBoundSplits(es: seq<KeyValue>, less: (Bytes, Bytes) -> bool, target: Bytes)
    ensures var k := LowerBound(es, less, target); AllBelow(es, less, target, k) && (k < |es| ==> !less(es[k].key, target))
    decreases |es|
  {
    if es != [] {
      LowerBoundSplits(es[..|es| - 1], less, target);
    }
  }

  lemma HeadZero(data: Bytes, restarts: nat, numRestarts: nat, l: Layout, interval: nat, k: nat)
    requires Formed(data, restarts, numRestarts, l, interval) && k <= |l.entries|
    ensures |l.offsets| == |l.entries| + 1 && numRestarts > 0 && l.heads[0] == 0 && (l.offsets[k] <= l.offsets[0] ==> k == 0)
  {
    OffsetsOrder(data, restarts, numRestarts, l, interval, 0, k);
  }

  lemma LastHead(data: Bytes, restarts: nat, numRestarts: nat, l: Layout, interval: nat)
    requires Formed(data, restarts, numRestarts, l, interval)
    ensures numRestarts > 0 && (l.heads[numRestarts - 1] < |l.entries| || l.entries == [])
  {
    assert Head(l, numRestarts - 1);
  }

  lemma OffsetsEnd(data: Bytes, restarts: nat, numRestarts: nat, l: Layout, interval: nat, k: nat)
    requires Formed(data, restarts, numRestarts, l, interval) && k <= |l.entries|
    ensures |l.offsets| == |l.entries| + 1 && (l.offsets[k] >= restarts <==> k == |l.entries|) &&
      l.offsets[|l.entries|] == restarts
  {
    OffsetsAscend(data[..restarts], l, interval, k, |l.entries|);
  }

  lemma OffsetsOrder(data: Bytes, restarts: nat, numRestarts: nat, l: Layout, interval: nat, a: nat, b: nat)
    requires Formed(data, restarts, numRestarts, l, interval) && a < |l.offsets| && b <= |l.entries|
    ensures |l.offsets| == |l.entries| + 1 && (l.offsets[a] < l.offsets[b] <==> a < b)
  {
    if a <= b {
      OffsetsAscend(data[..restarts], l, interval, a, b);
    } else {
      OffsetsAscend(data[..restarts], l, interval, b, a);
    }
  }

  lemma SharesPrevious(data: Bytes, restarts: nat, numRestarts: nat, l: Layout, interval: nat, k: nat)
    requires Formed(data, restarts, numRestarts, l, interval) && k <= |l.entries|
    ensures |l.shared| == |l.entries| && (k < |l.entries| ==> Shares(l.entries, k, l.shared[k]))
  {
    if k < |l.entries| {
      assert EntryAt(data[..restarts], l, k);
    }
  }

  // ----- round trip

  /** What Block's constructor and NewIterator make of some bytes. */
  datatype Opened = BadContents | NoRestarts | Opened(restarts: nat, numRestarts: nat)

  function Open(contents: Bytes): Opened {
    if |contents| < 4 then BadContents
    else
      var numRestarts := DecodeFixed32(Four(contents, |contents| - 4));
      if numRestarts > (|contents| - 4) / 4 then BadContents
      else if numRestarts == 0 then NoRestarts
      else Opened(|contents| - (1 + numRestarts) * 4, numRestarts)
  }

  /** The bytes of a finished block tell where its restart array is, and read as what was
      added. */
  lemma FinishedIsFormed(buffer: Bytes, restarts: seq<nat>, counter: nat, lastKey: Bytes, l: Layout, interval: nat)
    requires Built(buffer, restarts, counter, lastKey, l, interval) && interval >= 1
    requires forall i :: 0 <= i < |l.entries| ==> |l.entries[i].key| < TWO_TO_32
    requires |buffer| + 4 * (|restarts| + 1) < TWO_TO_32
    ensures var contents := buffer + Words(restarts + [|restarts|]);
      && Open(contents) == Opened(|buffer|, |restarts|)
      && Formed(contents, |buffer|, |restarts|, l, interval)
  {
    hide EncodeEntry, Words, DecodeFixed32, Encodes, RestartsAt, WordHolds, Open, RestartWord;
    var words := restarts + [|restarts|];
    var contents := buffer + Words(words);
    assert contents[..|buffer|] == buffer;
    HeadsExist(buffer, restarts, l, interval);
    forall j | 0 <= j < |words| ensures WordHolds(contents, |buffer| + 4 * j, words[j]) {
      WordFits(buffer, restarts, l, interval, j);
      WordOfContents(buffer, words, j);
    }
    assert WordHolds(contents, |buffer| + 4 * |restarts|, words[|restarts|]);
    OpensWith(contents, |buffer|, |restarts|);
    forall j | 0 <= j < |restarts| ensures RestartWord(contents, |buffer|, l, j) {
      assert WordHolds(contents, |buffer| + 4 * j, words[j]);
      WordIsOffset(contents, |buffer|, restarts, l, j);
    }
  }

  ghost predicate WordHolds(contents: Bytes, a: nat, w: nat) {
    a + 4 <= |contents| && DecodeFixed32(Four(contents, a)) == w
  }

  lemma OpensWith(contents: Bytes, restarts: nat, n: nat)
    requires |contents| == restarts + 4 * n + 4 && n > 0 && WordHolds(contents, restarts + 4 * n, n)
    ensures Open(contents) == Opened(restarts, n)
  {
    hide DecodeFixed32, Four;
  }

  lemma WordIsOffset(contents: Bytes, start: nat, restarts: seq<nat>, l: Layout, j: nat)
    requires RestartsAt(restarts, l) && j < |restarts| && WordHolds(contents, start + 4 * j, restarts[j])
    ensures RestartWord(contents, start, l, j)
  {
    hide DecodeFixed32, Four;
  }

  lemma WordOfContents(buffer: Bytes, words: seq<nat>, j: nat)
    requires j < |words| && words[j] < TWO_TO_32
    ensures WordHolds(buffer + Words(words), |buffer| + 4 * j, words[j])
  {
    hide Words, Word, Four, WordHolds;
    WordAt(words, j);
    WordInTail(buffer, Words(words), 4 * j, words[j]);
  }

  lemma WordInTail(a: Bytes, b: Bytes, i: nat, w: nat)
    requires i + 4 <= |b| && w < TWO_TO_32 && Four(b, i) == Word(w)
    ensures WordHolds(a + b, |a| + i, w)
  {
    hide Word, DecodeFixed32;
    FourInTail(a, b, i);
    WordRoundTrip(w);
  }

  lemma FourInTail(a: Bytes, b: Bytes, i: nat)
    requires i + 4 <= |b|
    ensures Four(a + b, |a| + i) == Four(b, i)
  {
  }

  lemma HeadsExist(buffer: Bytes, restarts: seq<nat>, l: Layout, interval: nat)
    requires Encodes(buffer, l, interval) && RestartsAt(restarts, l)
    ensures restarts != [] && |restarts| == |l.heads|
  {
  }

  lemma WordFits(buffer: Bytes, restarts: seq<nat>, l: Layout, interval: nat, j: nat)
    requires Encodes(buffer, l, interval) && RestartsAt(restarts, l) && j <= |restarts|
    requires |buffer| + 4 * (|restarts| + 1) < TWO_TO_32
    ensures (restarts + [|restarts|])[j] < TWO_TO_32
  {
    if j < |restarts| {
      OffsetsAscend(buffer, l, interval, l.heads[j], |l.entries|);
    }
  }

  /** Writing strictly ascending keys and reading them back: scanning yields the pairs in
      order, and seeking is linear search. */
  method RoundTrip(added: seq<KeyValue>, interval: nat, less: (Bytes, Bytes) -> bool, target: Bytes)
    returns (contents: Bytes, scanned: seq<KeyValue>, found: Option<KeyValue>)
    requires interval >= 1 && Monotone(added, less, target)
    requires forall i :: 0 <= i < |added| ==> |added[i].key| < TWO_TO_32
    ensures |contents| < TWO_TO_32 ==> scanned == added
    ensures |contents| < TWO_TO_32 ==>
      var k := LowerBound(added, less, target); found == if k < |added| then Some(added[k]) else None
  {
    var builder := new BlockBuilder(interval);
    for i := 0 to |added|
      invariant builder.Valid() && !builder.finished && builder.layout.entries == added[..i] && fresh(builder)
      invariant builder.interval == interval
    {
      builder.Add(added[i].key, added[i].value);
    }
    assert added[..|added|] == added;
    ghost var buffer, restarts, layout := builder.buffer, builder.restarts, builder.layout;
    ghost var counter, lastKey := builder.counter, builder.lastKey;
    contents := builder.Finish();
    scanned, found := [], None;
    if |contents| < TWO_TO_32 {
      FinishedIsFormed(buffer, restarts, counter, lastKey, layout, interval);
      var o := Open(contents);
      scanned, found := Read(contents, o.restarts, o.numRestarts, less, target, layout, interval);
    }
  }

  method Read(contents: Bytes, restarts: nat, numRestarts: nat, less: (Bytes, Bytes) -> bool, target: Bytes,
              ghost l: Layout, ghost interval: nat)
    returns (scanned: seq<KeyValue>, found: Option<KeyValue>)
    requires Formed(contents, restarts, numRestarts, l, interval) && Monotone(l.entries, less, target)
    ensures scanned == l.entries
    ensures var k := LowerBound(l.entries, less, target); found == if k < |l.entries| then Some(l.entries[k]) else None
  {
    hide Formed;
    var it := new Iter(contents, restarts, numRestarts, less, l, interval);
    it.SeekToFirst();
    scanned := [];
    while it.Valid()
      invariant it.StandsAt(|scanned|) && it.layout == l && it.less == less && fresh(it)
      invariant scanned == l.entries[..|scanned|]
      decreases |l.entries| - |scanned|
    {
      it.ValidIff(|scanned|);
      scanned := scanned + [it.Current()];
      it.Next(|scanned| - 1);
    }
    it.ValidIff(|scanned|);
    ghost var k := it.Seek(target);
    it.ValidIff(k);
    found := None;
    if it.Valid() {
      found := Some(it.Current());
    }
  }
}
