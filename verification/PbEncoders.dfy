/** The encoder of nanopb (pb_encode.c): one routine that either writes to a stream or, with no
    callback, only counts; submessages are counted first and written second. */
module PbEncoders {
  import opened DbFormat
  import opened Coding
  import opened PbMessages

  datatype Output = Output(buffer: Bytes, written: nat)

  /** What putting `b` does to a stream: counting always succeeds and writes nothing; writing
      succeeds exactly when it fits.  `fit` says whether the message itself is acceptable. */
  predicate Puts(writing: bool, max: nat, s: Output, t: Output, ok: bool, fit: bool, b: Bytes) {
    if writing then
      && (ok <==> fit && s.written + |b| <= max)
      && (ok ==> t == Output(s.buffer + b, s.written + |b|))
      && t.written <= max
    else
      && (ok <==> fit)
      && (ok ==> t == Output(s.buffer, s.written + |b|))
      && t.buffer == s.buffer
  }

  lemma PutsInTurn(writing: bool, max: nat, s: Output, t: Output, u: Output, ok: bool, fit1: bool, fit2: bool,
                   a: Bytes, b: Bytes)
    requires Puts(writing, max, s, t, true, fit1, a) && Puts(writing, max, t, u, ok, fit2, b)
    ensures Puts(writing, max, s, u, ok, fit1 && fit2, a + b)
  {
    assert s.buffer + a + b == s.buffer + (a + b);
  }

  lemma PutsFails(writing: bool, max: nat, s: Output, t: Output, fit1: bool, fit2: bool, a: Bytes, b: Bytes)
    requires Puts(writing, max, s, t, false, fit1, a)
    ensures Puts(writing, max, s, t, false, fit1 && fit2, a + b)
  {
  }

  class OStream {
    /** Whether there is a callback. */
    const writing: bool
    const maxSize: nat
    /** What the callback has received, through this stream and those it was made from. */
    var buffer: Bytes
    var bytesWritten: nat

    function State(): Output
      reads this
    {
      Output(buffer, bytesWritten)
    }

    ghost predicate Ok()
      reads this
    {
      writing ==> bytesWritten <= maxSize
    }

    constructor (writing: bool, maxSize: nat, buffer: Bytes)
      ensures Ok() && State() == Output(buffer, 0) && this.writing == writing && this.maxSize == maxSize
    {
      this.writing, this.maxSize, this.buffer, bytesWritten := writing, maxSize, buffer, 0;
    }

    /** pb_write. */
    method Write(b: Bytes) returns (ok: bool)
      requires Ok()
      modifies this
      ensures Ok() && Puts(writing, maxSize, old(State()), State(), ok, true, b)
    {
      if |b| > 0 && writing {
        if bytesWritten + |b| > maxSize {
          return false;
        }
        buffer := buffer + b;
      }
      bytesWritten := bytesWritten + |b|;
      ok := true;
    }

    /** pb_write without data, which only counting streams see. */
    method Count(size: nat)
      requires Ok() && !writing
      modifies this
      ensures Ok() && State() == Output(old(buffer), old(bytesWritten) + size)
    {
      bytesWritten := bytesWritten + size;
    }

    /** pb_encode_varint. */
    method PutVarint(value: nat) returns (ok: bool)
      requires Ok()
      modifies this
      ensures Ok() && Puts(writing, maxSize, old(State()), State(), ok, true, Varint(value))
    {
      if value <= 0x7F {
        ok := Write([value as Byte]);
        return;
      }
      var b := Spell(value);
      ok := Write(b);
    }

    /** Every byte gets its top bit, and the last one loses it again. */
    static method Spell(value: nat) returns (b: Bytes)
      requires value > 0x7F
      ensures b == Varint(value)
    {
      b := [];
      var v: nat := value;
      while v > 0
        invariant v > 0 ==> b + Varint(v) == Varint(value)
        invariant v == 0 ==> b != [] && b[|b| - 1] >= 128 && LastClosed(b) == Varint(value)
      {
        var low := (v % 128 + 128) as Byte;
        SpellMore(b, low, Varint(v / 128));
        SpellLast(b, low);
        b := b + [low];
        v := v / 128;
      }
      b := LastClosed(b);
    }

    static lemma SpellMore(b: Bytes, low: Byte, more: Bytes)
      ensures b + ([low] + more) == b + [low] + more
    {
    }

    static lemma SpellLast(b: Bytes, low: Byte)
      requires low >= 128
      ensures LastClosed(b + [low]) == b + [low - 128]
    {
      assert (b + [low])[..|b|] == b;
    }

    static function LastClosed(b: Bytes): Bytes
      requires b != [] && b[|b| - 1] >= 128
    {
      b[..|b| - 1] + [b[|b| - 1] - 128]
    }

    method PutTag(tag: nat, wire: nat) returns (ok: bool)
      requires Ok()
      modifies this
      ensures Ok() && Puts(writing, maxSize, old(State()), State(), ok, true, TagBytes(tag, wire))
    {
      ok := PutVarint(tag * 8 + wire);
    }

    /** pb_encode_string. */
    method PutString(b: Bytes) returns (ok: bool)
      requires Ok()
      modifies this
      ensures Ok() && Puts(writing, maxSize, old(State()), State(), ok, true, Prefixed(b))
    {
      hide Puts;
      ghost var s := State();
      ok := PutVarint(|b|);
      if !ok {
        PutsFails(writing, maxSize, s, State(), true, true, Varint(|b|), b);
        return;
      }
      ghost var t := State();
      ok := Write(b);
      PutsInTurn(writing, maxSize, s, t, State(), ok, true, true, Varint(|b|), b);
    }

    /** The field encoders, by data type. */
    method PutValue(t: LType, v: Value) returns (ok: bool)
      requires Ok() && Typed(t, v)
      modifies this
      ensures Ok() && Puts(writing, maxSize, old(State()), State(), ok, Fits(t, v), ValueBytes(t, v))
      decreases t, 0
    {
      match t
      case Bool => ok := PutVarint(v.n);
      case Int(_) => ok := PutVarint(Word64(v.n));
      case Uint(_) => ok := PutVarint(v.n);
      case Zigzag(_) => ok := PutVarint(ZigZag(v.n));
      case Fixed32 => ok := Write(EncodeFixed32(v.n));
      case Fixed64 => ok := Write(EncodeFixed64(v.n));
      case Submessage(fields) => ok := PutSubmessage(fields, v.slots);
      case BytesOf(max) =>
        if |v.bytes| > max {
          return false;
        }
        ok := PutString(v.bytes);
      case _ => ok := PutString(v.bytes);
    }

    /** pb_encode_submessage: first the size, by counting, then the message, through a
        stream of exactly that size. */
    method PutSubmessage(fields: seq<Field>, slots: seq<seq<Value>>) returns (ok: bool)
      requires Ok() && AllTyped(fields, slots)
      modifies this
      ensures Ok()
      ensures Puts(writing, maxSize, old(State()), State(), ok, AllFit(fields, slots, 0),
        Prefixed(MessageBytes(fields, slots, 0)))
      decreases fields, |fields| + 1
    {
      hide AllTyped, AllFit, MessageBytes, Varint;
      ghost var s, m, fit := State(), MessageBytes(fields, slots, 0), AllFit(fields, slots, 0);
      var sizing := new OStream(false, 0, []);
      ok := sizing.Encode(fields, slots);
      if !ok {
        return;
      }
      var size := sizing.bytesWritten;
      ok := PutVarint(size);
      if !ok {
        return;
      }
      if !writing {
        Count(size);
        return;
      }
      if bytesWritten + size > maxSize {
        return false;
      }
      var substream := new OStream(true, size, buffer);
      var status := substream.Encode(fields, slots);
      bytesWritten := bytesWritten + substream.bytesWritten;
      buffer := substream.buffer;
      // The error "submsg size changed" cannot happen.
      if substream.bytesWritten != size {
        assert false;
      }
      assert s.buffer + (Varint(size) + m) == s.buffer + Varint(size) + m;
      ok := status;
    }

    /** encode_array: numbers are packed behind their total size, which is counted first
        unless all have the same size; anything else is written item by item. */
    method PutArray(f: Field, items: seq<Value>) returns (ok: bool)
      requires Ok() && SlotTyped(f, items) && Arrayed(f.htype)
      modifies this
      ensures Ok() && Puts(writing, maxSize, old(State()), State(), ok, SlotFits(f, items), FieldBytes(f, items))
      decreases f, 2
    {
      if items == [] {
        return true;
      }
      if f.htype.Repeated? && |items| > f.htype.arraySize {
        return false;
      }
      if Packable(f.ltype) {
        ok := PutPacked(f, items);
      } else {
        ok := PutUnpacked(f, items);
      }
    }

    method PutPacked(f: Field, items: seq<Value>) returns (ok: bool)
      requires Ok() && SlotTyped(f, items) && Packable(f.ltype)
      modifies this
      ensures Ok() && Puts(writing, maxSize, old(State()), State(), ok, ItemsFit(f, items, 0),
                           TagBytes(f.tag, STRING_WIRE) + Prefixed(PackedBytes(f, items, 0)))
      decreases f, 1
    {
      hide Puts, Varint, PackedBytes, TagBytes;
      NumbersFit(f, items, 0);
      ghost var s, data := State(), PackedBytes(f, items, 0);
      ghost var front := TagBytes(f.tag, STRING_WIRE);
      ok := PutTag(f.tag, STRING_WIRE);
      if !ok {
        PutsFails(writing, maxSize, s, State(), true, true, front, Prefixed(data));
        return;
      }
      var size := PackedSize(f, items);
      ghost var t := State();
      ok := PutVarint(size);
      PutsInTurn(writing, maxSize, s, t, State(), ok, true, true, front, Varint(size));
      Regroup(front, Varint(size), data);
      if !ok {
        PutsFails(writing, maxSize, s, State(), true, true, front + Varint(size), data);
        return;
      }
      t := State();
      if !writing {
        Count(size);
        Counted(maxSize, t, data);
      } else {
        ok := PutItems(f, items);
      }
      PutsInTurn(writing, maxSize, s, t, State(), ok, true, true, front + Varint(size), data);
    }

    /** The size of the packed numbers; no need to count those of a fixed size. */
    static method PackedSize(f: Field, items: seq<Value>) returns (size: nat)
      requires SlotTyped(f, items) && Packable(f.ltype)
      ensures size == |PackedBytes(f, items, 0)|
      decreases f, 0, 1
    {
      if f.ltype.Fixed32? {
        FixedSizes(f, items, 0, 4);
        size := 4 * |items|;
      } else if f.ltype.Fixed64? {
        FixedSizes(f, items, 0, 8);
        size := 8 * |items|;
      } else {
        var sizing := new OStream(false, 0, []);
        NumbersFit(f, items, 0);
        var ok := sizing.PutItems(f, items);
        size := sizing.bytesWritten;
      }
    }

    /** The values one after the other, without tags. */
    method PutItems(f: Field, items: seq<Value>) returns (ok: bool)
      requires Ok() && forall j :: 0 <= j < |items| ==> Typed(f.ltype, items[j])
      requires Packable(f.ltype)
      modifies this
      ensures Ok() && Puts(writing, maxSize, old(State()), State(), ok, true, PackedBytes(f, items, 0))
      decreases f, 0, 0
    {
      hide Puts, Typed, ValueBytes;
      ghost var s, done := State(), [];
      Nothing(writing, maxSize, s);
      for k := 0 to |items|
        invariant Ok() && Puts(writing, maxSize, s, State(), true, true, done)
        invariant done + PackedBytes(f, items, k) == PackedBytes(f, items, 0)
      {
        ghost var t, b, more := State(), ValueBytes(f.ltype, items[k]), PackedBytes(f, items, k + 1);
        ok := PutValue(f.ltype, items[k]);
        PutsInTurn(writing, maxSize, s, t, State(), ok, true, true, done, b);
        Regroup(done, b, more);
        if !ok {
          PutsFails(writing, maxSize, s, State(), true, true, done + b, more);
          return;
        }
        done := done + b;
      }
      assert done + [] == done;
      ok := true;
    }

    method PutUnpacked(f: Field, items: seq<Value>) returns (ok: bool)
      requires Ok() && SlotTyped(f, items)
      modifies this
      ensures Ok() && Puts(writing, maxSize, old(State()), State(), ok, ItemsFit(f, items, 0), UnpackedBytes(f, items, 0))
      decreases f, 1
    {
      hide Puts, Typed, ValueBytes, TagBytes, Fits;
      ghost var s, done, fit := State(), [], true;
      Nothing(writing, maxSize, s);
      for k := 0 to |items|
        invariant Ok() && Puts(writing, maxSize, s, State(), true, fit, done)
        invariant done + UnpackedBytes(f, items, k) == UnpackedBytes(f, items, 0)
        invariant fit && ItemsFit(f, items, k) <==> ItemsFit(f, items, 0)
      {
        ghost var front, more := TagBytes(f.tag, WireOf(f.ltype)), UnpackedBytes(f, items, k + 1);
        ghost var t, b := State(), front + ValueBytes(f.ltype, items[k]);
        ok := PutItem(f, items[k]);
        PutsInTurn(writing, maxSize, s, t, State(), ok, fit, Fits(f.ltype, items[k]), done, b);
        Regroup(front, ValueBytes(f.ltype, items[k]), more);
        Regroup(done, b, more);
        if !ok {
          PutsFails(writing, maxSize, s, State(), fit && Fits(f.ltype, items[k]), ItemsFit(f, items, k + 1), done + b, more);
          return;
        }
        done, fit := done + b, fit && Fits(f.ltype, items[k]);
      }
      assert done + [] == done;
      ok := true;
    }

    /** An item behind its tag. */
    method PutItem(f: Field, v: Value) returns (ok: bool)
      requires Ok() && Typed(f.ltype, v)
      modifies this
      ensures Ok() && Puts(writing, maxSize, old(State()), State(), ok, Fits(f.ltype, v),
                           TagBytes(f.tag, WireOf(f.ltype)) + ValueBytes(f.ltype, v))
      decreases f, 0
    {
      hide Puts, Typed, ValueBytes, TagBytes, Fits;
      ghost var s, front, b := State(), TagBytes(f.tag, WireOf(f.ltype)), ValueBytes(f.ltype, v);
      ok := PutTag(f.tag, WireOf(f.ltype));
      if !ok {
        PutsFails(writing, maxSize, s, State(), true, Fits(f.ltype, v), front, b);
        return;
      }
      ghost var t := State();
      ok := PutValue(f.ltype, v);
      PutsInTurn(writing, maxSize, s, t, State(), ok, true, Fits(f.ltype, v), front, b);
    }

    /** encode_basic_field. */
    method PutField(f: Field, items: seq<Value>) returns (ok: bool)
      requires Ok() && SlotTyped(f, items)
      modifies this
      ensures Ok() && Puts(writing, maxSize, old(State()), State(), ok, SlotFits(f, items), FieldBytes(f, items))
      decreases f, 3
    {
      if Arrayed(f.htype) {
        ok := PutArray(f, items);
      } else if items != [] && Written(f, items) {
        ok := PutUnpacked(f, items);
      } else {
        ok := true;
      }
    }

    /** pb_encode. */
    method Encode(fields: seq<Field>, slots: seq<seq<Value>>) returns (ok: bool)
      requires Ok() && AllTyped(fields, slots)
      modifies this
      ensures Ok()
      ensures Puts(writing, maxSize, old(State()), State(), ok, AllFit(fields, slots, 0), MessageBytes(fields, slots, 0))
      decreases fields, |fields|
    {
      hide Puts, FieldBytes, SlotFits;
      ghost var s, done, fit := State(), [], true;
      Nothing(writing, maxSize, s);
      for i := 0 to |fields|
        invariant Ok() && Puts(writing, maxSize, s, State(), true, fit, done)
        invariant done + MessageBytes(fields, slots, i) == MessageBytes(fields, slots, 0)
        invariant fit && AllFit(fields, slots, i) <==> AllFit(fields, slots, 0)
      {
        ghost var t, b, more := State(), FieldBytes(fields[i], slots[i]), MessageBytes(fields, slots, i + 1);
        ok := PutField(fields[i], slots[i]);
        PutsInTurn(writing, maxSize, s, t, State(), ok, fit, SlotFits(fields[i], slots[i]), done, b);
        Regroup(done, b, more);
        if !ok {
          PutsFails(writing, maxSize, s, State(), fit && SlotFits(fields[i], slots[i]), AllFit(fields, slots, i + 1),
                    done + b, more);
          return;
        }
        done, fit := done + b, fit && SlotFits(fields[i], slots[i]);
      }
      assert done + [] == done;
      ok := true;
    }
  }

  /** pb_get_encoded_size: counting finds the size that writing needs. */
  method GetEncodedSize(fields: seq<Field>, slots: seq<seq<Value>>) returns (ok: bool, size: nat)
    requires AllTyped(fields, slots)
    ensures ok <==> AllFit(fields, slots, 0)
    ensures ok ==> size == |MessageBytes(fields, slots, 0)|
  {
    var stream := new OStream(false, 0, []);
    ok := stream.Encode(fields, slots);
    size := stream.bytesWritten;
  }

  /** pb_encode to a buffer of a given size: it succeeds exactly when the size that counting
      finds is at most the size of the buffer. */
  method EncodeToBuffer(fields: seq<Field>, slots: seq<seq<Value>>, bufferSize: nat) returns (ok: bool, b: Bytes)
    requires AllTyped(fields, slots)
    ensures ok <==> AllFit(fields, slots, 0) && |MessageBytes(fields, slots, 0)| <= bufferSize
    ensures ok ==> b == MessageBytes(fields, slots, 0)
  {
    var stream := new OStream(true, bufferSize, []);
    ok := stream.Encode(fields, slots);
    b := stream.buffer;
  }

  lemma Nothing(writing: bool, max: nat, s: Output)
    requires writing ==> s.written <= max
    ensures Puts(writing, max, s, s, true, true, [])
  {
  }

  lemma Counted(max: nat, t: Output, b: Bytes)
    ensures Puts(false, max, t, Output(t.buffer, t.written + |b|), true, true, b)
  {
  }

  /** Numbers are always acceptable. */
  lemma {:induction false} NumbersFit(f: Field, items: seq<Value>, k: nat)
    requires k <= |items| && Packable(f.ltype) && forall j :: 0 <= j < |items| ==> Typed(f.ltype, items[j])
    ensures ItemsFit(f, items, k)
    decreases |items| - k
  {
    if k < |items| {
      NumbersFit(f, items, k + 1);
    }
  }

  lemma {:induction false} FixedSizes(f: Field, items: seq<Value>, k: nat, size: nat)
    requires k <= |items| && forall j :: 0 <= j < |items| ==> Typed(f.ltype, items[j])
    requires (f.ltype.Fixed32? && size == 4) || (f.ltype.Fixed64? && size == 8)
    ensures |PackedBytes(f, items, k)| == size * (|items| - k)
    decreases |items| - k
  {
    if k < |items| {
      FixedSizes(f, items, k + 1, size);
    }
  }

  lemma Regroup(a: Bytes, b: Bytes, c: Bytes)
    ensures a + (b + c) == a + b + c
  {
  }
}
