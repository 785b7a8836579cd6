/** A batch of writes as it is kept in memory, logged, and replayed (db/write_batch.cc). */
module WriteBatches {
  import opened Wrappers
  import opened DbFormat
  import opened Coding

  datatype Op = Put(key: Bytes, value: Bytes) | Delete(key: Bytes)

  /** An operation under the sequence number that it was given. */
  datatype Numbered = Numbered(seqno: nat, op: Op)

  datatype Status = Ok | Corruption(message: string)

  /** kHeader: the sequence number and the count. */
  const HEADER: nat := 12

  const DELETION_TAG: Byte := 0
  const VALUE_TAG: Byte := 1

  function Record(op: Op): (b: Bytes)
    ensures |b| >= 2
  {
    match op
    case Put(key, value) => [VALUE_TAG] + LengthPrefixed(key) + LengthPrefixed(value)
    case Delete(key) => [DELETION_TAG] + LengthPrefixed(key)
  }

  function Body(ops: seq<Op>): Bytes {
    if ops == [] then [] else Record(ops[0]) + Body(ops[1..])
  }

  /** The bytes of a batch: first sequence number, count (cut to 32 bits), operations. */
  function Contents(first: nat, ops: seq<Op>): (b: Bytes)
    requires first < TWO_TO_64
    ensures |b| == HEADER + |Body(ops)|
  {
    EncodeFixed64(first) + EncodeFixed32(|ops| % TWO_TO_32) + Body(ops)
  }

  /** The operations under consecutive numbers. */
  function Number(first: nat, ops: seq<Op>): (r: seq<Numbered>)
    ensures |r| == |ops|
    decreases |ops|
  {
    if ops == [] then [] else [Numbered(first, ops[0])] + Number(first + 1, ops[1..])
  }

  /** Keys and values whose lengths fit the 32-bit length prefix. */
  predicate Fits(op: Op) {
    |op.key| < TWO_TO_32 && (op.Put? ==> |op.value| < TWO_TO_32)
  }

  predicate AllFit(ops: seq<Op>) {
    forall i :: 0 <= i < |ops| ==> Fits(ops[i])
  }

  lemma {:induction false} BodyConcat(a: seq<Op>, b: seq<Op>)
    ensures Body(a + b) == Body(a) + Body(b)
  {
    if a == [] {
      assert a + b == b;
    } else {
      assert (a + b)[1..] == a[1..] + b;
      BodyConcat(a[1..], b);
    }
  }

  lemma BodyOne(op: Op)
    ensures Body([op]) == Record(op)
  {
    assert [op][1..] == [];
  }

  lemma {:induction false} NumberConcat(first: nat, a: seq<Op>, b: seq<Op>)
    ensures Number(first, a + b) == Number(first, a) + Number(first + |a|, b)
    decreases |a|
  {
    if a == [] {
      assert a + b == b;
    } else {
      assert (a + b)[1..] == a[1..] + b;
      NumberConcat(first + 1, a[1..], b);
    }
  }

  lemma {:induction false} NumberAt(first: nat, ops: seq<Op>, i: nat)
    requires i < |ops|
    ensures Number(first, ops)[i] == Numbered(first + i, ops[i])
    decreases i
  {
    if i > 0 {
      NumberAt(first + 1, ops[1..], i - 1);
    }
  }

  lemma {:induction false} BodyIsLonger(ops: seq<Op>)
    ensures 2 * |ops| <= |Body(ops)|
  {
    if ops != [] {
      BodyIsLonger(ops[1..]);
    }
  }

  /** Where the header ends and what it says. */
  lemma ContentsParts(first: nat, ops: seq<Op>)
    requires first < TWO_TO_64
    ensures var rep := Contents(first, ops);
      && rep[..8] == EncodeFixed64(first)
      && rep[8..12] == EncodeFixed32(|ops| % TWO_TO_32)
      && rep[12..] == Body(ops)
      && DecodeFixed64(rep[..8]) == first
      && DecodeFixed32(rep[8..12]) == |ops| % TWO_TO_32
  {
    Fixed64RoundTrip(first);
    FixedRoundTrip(|ops| % TWO_TO_32);
    hide EncodeFixed64, EncodeFixed32, DecodeFixed64, DecodeFixed32;
    var a, b, c := EncodeFixed64(first), EncodeFixed32(|ops| % TWO_TO_32), Body(ops);
    assert (a + b + c)[..8] == a && (a + b + c)[8..12] == b && (a + b + c)[12..] == c;
  }

  lemma ContentsFrom(rep: Bytes, first: nat, ops: seq<Op>)
    requires |rep| >= HEADER && first < TWO_TO_64
    requires rep[..8] == EncodeFixed64(first) && rep[8..12] == EncodeFixed32(|ops| % TWO_TO_32) && rep[12..] == Body(ops)
    ensures rep == Contents(first, ops)
  {
    hide EncodeFixed64, EncodeFixed32, Body;
    assert rep == rep[..8] + rep[8..12] + rep[12..];
  }

  lemma RecordsAdded(first: nat, ops: seq<Op>, more: seq<Op>, count: nat)
    requires first < TWO_TO_64 && count == |ops + more| % TWO_TO_32
    ensures var was := Contents(first, ops);
      was[..8] + EncodeFixed32(count) + was[HEADER..] + Body(more) == Contents(first, ops + more)
  {
    ContentsParts(first, ops);
    BodyConcat(ops, more);
    hide EncodeFixed64, EncodeFixed32, DecodeFixed32, DecodeFixed64, Body, Contents;
    var was := Contents(first, ops);
    MiddleReplaced(was, EncodeFixed32(count), Body(more));
    ContentsFrom(was[..8] + EncodeFixed32(count) + was[HEADER..] + Body(more), first, ops + more);
  }

  lemma MiddleReplaced(rep: Bytes, middle: Bytes, tail: Bytes)
    requires |rep| >= HEADER && |middle| == 4
    ensures var now := rep[..8] + middle + rep[HEADER..] + tail;
      |now| >= HEADER && now[..8] == rep[..8] && now[8..HEADER] == middle && now[HEADER..] == rep[HEADER..] + tail
  {
  }

  /** What Iterate has handed out when it stops, and why it stops. */
  datatype Scanned = Scanned(ops: seq<Op>, status: Status)

  function Then(op: Op, more: Scanned): Scanned {
    Scanned([op] + more.ops, more.status)
  }

  function Scan(input: Bytes): Scanned
    decreases |input|
  {
    if input == [] then Scanned([], Ok)
    else if input[0] == VALUE_TAG then
      var key := TakeSlice(input[1..]);
      if key.None? then Scanned([], Corruption("bad WriteBatch Put"))
      else
        var value := TakeSlice(key.value.rest);
        if value.None? then Scanned([], Corruption("bad WriteBatch Put"))
        else Then(Put(key.value.slice, value.value.slice), Scan(value.value.rest))
    else if input[0] == DELETION_TAG then
      var key := TakeSlice(input[1..]);
      if key.None? then Scanned([], Corruption("bad WriteBatch Delete"))
      else Then(Delete(key.value.slice), Scan(key.value.rest))
    else Scanned([], Corruption("unknown WriteBatch tag"))
  }

  /** Scanning what the operations were written as yields them. */
  lemma {:induction false} ScanBody(ops: seq<Op>)
    requires AllFit(ops)
    ensures Scan(Body(ops)) == Scanned(ops, Ok)
  {
    if ops != [] {
      ScanBody(ops[1..]);
      ScanRecord(ops[0], Body(ops[1..]));
    }
  }

  lemma ScanRecord(op: Op, rest: Bytes)
    requires Fits(op)
    ensures Scan(Record(op) + rest) == Then(op, Scan(rest))
  {
    if op.Put? {
      ScanPut(op.key, op.value, rest);
    } else {
      ScanDelete(op.key, rest);
    }
  }

  lemma ScanPut(key: Bytes, value: Bytes, rest: Bytes)
    requires |key| < TWO_TO_32 && |value| < TWO_TO_32
    ensures Scan([VALUE_TAG] + LengthPrefixed(key) + LengthPrefixed(value) + rest) == Then(Put(key, value), Scan(rest))
  {
    SliceRoundTrip(key, LengthPrefixed(value) + rest);
    SliceRoundTrip(value, rest);
    hide LengthPrefixed, TakeSlice, Then, Scan;
    FrontTaken(VALUE_TAG, LengthPrefixed(key), LengthPrefixed(value), rest);
    PutScanned([VALUE_TAG] + LengthPrefixed(key) + LengthPrefixed(value) + rest);
  }

  lemma FrontTaken(tag: Byte, a: Bytes, b: Bytes, rest: Bytes)
    ensures ([tag] + a + b + rest)[0] == tag && ([tag] + a + b + rest)[1..] == a + (b + rest)
  {
  }

  lemma PutScanned(input: Bytes)
    requires input != [] && input[0] == VALUE_TAG && TakeSlice(input[1..]).Some?
    requires TakeSlice(TakeSlice(input[1..]).value.rest).Some?
    ensures var k := TakeSlice(input[1..]).value; var v := TakeSlice(k.rest).value;
      Scan(input) == Then(Put(k.slice, v.slice), Scan(v.rest))
  {
    hide TakeSlice, Then;
  }

  lemma ScanDelete(key: Bytes, rest: Bytes)
    requires |key| < TWO_TO_32
    ensures Scan([DELETION_TAG] + LengthPrefixed(key) + rest) == Then(Delete(key), Scan(rest))
  {
    SliceRoundTrip(key, rest);
    hide LengthPrefixed, TakeSlice, Then;
    var k := LengthPrefixed(key);
    var input := [DELETION_TAG] + k + rest;
    assert input[1..] == k + rest;
  }

  class WriteBatch {
    var rep: Bytes
    /** What the bytes stand for. */
    ghost var first: nat
    ghost var ops: seq<Op>

    ghost predicate Valid()
      reads this
    {
      first < TWO_TO_64 && rep == Contents(first, ops)
    }

    constructor ()
      ensures Valid() && first == 0 && ops == []
    {
      rep, first, ops := seq(HEADER, i => 0), 0, [];
    }

    method Clear()
      modifies this
      ensures Valid() && first == 0 && ops == []
    {
      rep, first, ops := seq(HEADER, i => 0), 0, [];
    }

    function Count(): (n: nat)
      requires Valid()
      reads this
      ensures n == |ops| % TWO_TO_32
    {
      ContentsParts(first, ops);
      DecodeFixed32(rep[8..12])
    }

    function Sequence(): (n: nat)
      requires Valid()
      reads this
      ensures n == first
    {
      ContentsParts(first, ops);
      DecodeFixed64(rep[..8])
    }

    function ByteSize(): (n: nat)
      requires Valid()
      reads this
      ensures n == HEADER + |Body(ops)|
    {
      |rep|
    }

    method SetSequence(seqno: nat)
      requires Valid() && seqno < TWO_TO_64
      modifies this
      ensures Valid() && first == seqno && ops == old(ops)
    {
      ContentsParts(first, ops);
      hide EncodeFixed64, EncodeFixed32;
      ghost var was := rep;
      rep := EncodeFixed64(seqno) + rep[8..];
      first := seqno;
      assert rep[8..] == was[8..];
      assert rep[8..12] == was[8..12] && rep[12..] == was[12..];
      ContentsFrom(rep, first, ops);
    }

    /** SetCount, then the record at the end. */
    method AddRecords(count: nat, records: Bytes, ghost more: seq<Op>)
      requires Valid() && count == |ops| % TWO_TO_32 + |more| % TWO_TO_32 && records == Body(more)
      modifies this
      ensures Valid() && first == old(first) && ops == old(ops) + more
    {
      hide Contents, EncodeFixed32, Body, Number;
      rep := rep[..8] + EncodeFixed32(count % TWO_TO_32) + rep[HEADER..] + records;
      RecordsAdded(first, ops, more, count % TWO_TO_32);
      ops := ops + more;
    }

    method Put(key: Bytes, value: Bytes)
      requires Valid()
      modifies this
      ensures Valid() && first == old(first) && ops == old(ops) + [Op.Put(key, value)]
    {
      BodyOne(Op.Put(key, value));
      AddRecords(Count() + 1, [VALUE_TAG] + LengthPrefixed(key) + LengthPrefixed(value), [Op.Put(key, value)]);
    }

    method Delete(key: Bytes)
      requires Valid()
      modifies this
      ensures Valid() && first == old(first) && ops == old(ops) + [Op.Delete(key)]
    {
      BodyOne(Op.Delete(key));
      AddRecords(Count() + 1, [DELETION_TAG] + LengthPrefixed(key), [Op.Delete(key)]);
    }

    method Append(src: WriteBatch)
      requires Valid() && src.Valid()
      modifies this
      ensures Valid() && first == old(first) && ops == old(ops) + old(src.ops)
    {
      ContentsParts(src.first, src.ops);
      AddRecords(Count() + src.Count(), src.rep[HEADER..], src.ops);
    }
  }

  /** WriteBatch::Iterate over a representation that may come from anywhere: what it hands
      to the handler, in order, and how it ends. */
  method Iterate(rep: Bytes) returns (handled: seq<Op>, status: Status)
    ensures |rep| < HEADER ==> handled == [] && status.Corruption?
    ensures |rep| >= HEADER ==>
      var s := Scan(rep[HEADER..]);
      && handled == s.ops
      && (status == Ok <==> s.status == Ok && |handled| % TWO_TO_32 == DecodeFixed32(rep[8..12]))
  {
    handled := [];
    if |rep| < HEADER {
      return [], Corruption("malformed WriteBatch (too small)");
    }
    var input := rep[HEADER..];
    ghost var whole := Scan(input);
    while input != []
      invariant whole.ops == handled + Scan(input).ops && whole.status == Scan(input).status
      decreases |input|
    {
      var tag := input[0];
      input := input[1..];
      if tag == VALUE_TAG {
        var key := GetLengthPrefixedSlice(input);
        if key.None? {
          return handled, Corruption("bad WriteBatch Put");
        }
        var value := GetLengthPrefixedSlice(key.value.rest);
        if value.None? {
          return handled, Corruption("bad WriteBatch Put");
        }
        handled := handled + [Put(key.value.slice, value.value.slice)];
        input := value.value.rest;
      } else if tag == DELETION_TAG {
        var key := GetLengthPrefixedSlice(input);
        if key.None? {
          return handled, Corruption("bad WriteBatch Delete");
        }
        handled := handled + [Delete(key.value.slice)];
        input := key.value.rest;
      } else {
        return handled, Corruption("unknown WriteBatch tag");
      }
    }
    if |handled| % TWO_TO_32 != DecodeFixed32(rep[8..12]) {
      status := Corruption("WriteBatch has wrong count");
    } else {
      status := Ok;
    }
  }

  /** InsertInto: the operations go into the memtable under consecutive numbers from the one
      in the header. */
  method InsertInto(rep: Bytes, mem: seq<Numbered>) returns (after: seq<Numbered>, status: Status)
    requires |rep| >= HEADER
    ensures var s := Scan(rep[HEADER..]);
      && after == mem + Number(DecodeFixed64(rep[..8]), s.ops)
      && (status == Ok <==> s.status == Ok && |s.ops| % TWO_TO_32 == DecodeFixed32(rep[8..12]))
  {
    hide DecodeFixed64, DecodeFixed32, Scan, Number;
    var sequence := DecodeFixed64(rep[..8]);
    ghost var first := sequence;
    var ops;
    ops, status := Iterate(rep);
    after := mem;
    NoneNumbered(first);
    assert ops[..0] == [];
    for i := 0 to |ops|
      invariant sequence == first + i
      invariant after == mem + Number(first, ops[..i])
    {
      OneMoreNumbered(first, ops, i);
      after := after + [Numbered(sequence, ops[i])];
      sequence := sequence + 1;
    }
    assert ops[..|ops|] == ops;
  }

  lemma NoneNumbered(first: nat)
    ensures Number(first, []) == []
  {
  }

  lemma OneMoreNumbered(first: nat, ops: seq<Op>, i: nat)
    requires i < |ops|
    ensures Number(first, ops[..i + 1]) == Number(first, ops[..i]) + [Numbered(first + i, ops[i])]
  {
    NumberConcat(first, ops[..i], [ops[i]]);
    assert ops[..i + 1] == ops[..i] + [ops[i]];
    NumberAt(first + i, [ops[i]], 0);
  }

  /** A batch goes into the memtable as the operations that were put into it. */
  lemma ReplayOfContents(first: nat, ops: seq<Op>)
    requires first < TWO_TO_64 && AllFit(ops)
    ensures var rep := Contents(first, ops);
      && DecodeFixed64(rep[..8]) == first
      && Scan(rep[HEADER..]) == Scanned(ops, Ok)
      && |ops| % TWO_TO_32 == DecodeFixed32(rep[8..12])
  {
    ContentsParts(first, ops);
    ScanBody(ops);
  }
}
