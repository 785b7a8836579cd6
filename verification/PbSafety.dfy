/** Whatever the bytes are, what nanopb decodes stays within the struct that it decodes into:
    numbers within their width, arrays within their bounds, bytes and strings within their
    storage, at any depth.  So it can always be encoded again. */
module PbSafety {
  import opened Wrappers
  import opened DbFormat
  import opened Coding
  import opened PbMessages
  import opened PbDecoders
  import opened PbRoundTrip

  /** A descriptor as the generator emits it: numbers have one of the sizes that there are. */
  predicate Described(fields: seq<Field>) {
    forall i :: 0 <= i < |fields| ==> DescribedField(fields[i])
  }

  predicate DescribedField(f: Field) {
    DescribedType(f.ltype)
  }

  predicate DescribedType(t: LType) {
    match t
    case Int(size) => ValidSize(size)
    case Uint(size) => ValidSize(size)
    case Zigzag(size) => ValidSize(size)
    case Submessage(fields) => Described(fields)
    case _ => true
  }

  /** The value is within its storage. */
  predicate Held(t: LType, v: Value) {
    match t
    case BytesOf(max) => v.Raw? && |v.bytes| <= max
    case Submessage(fields) => v.Msg? && AllHeld(fields, v.slots)
    case _ => Typed(t, v)
  }

  predicate AllHeld(fields: seq<Field>, slots: seq<seq<Value>>) {
    |slots| == |fields| && forall i :: 0 <= i < |fields| ==> SlotHeld(fields[i], slots[i])
  }

  predicate SlotHeld(f: Field, items: seq<Value>) {
    && CountTyped(f.htype, |items|) && (f.htype.Repeated? ==> |items| <= f.htype.arraySize)
    && ItemsHeld(f.ltype, items)
  }

  predicate ItemsHeld(t: LType, items: seq<Value>) {
    forall k :: 0 <= k < |items| ==> Held(t, items[k])
  }

  // ---------- what is held is typed and acceptable ----------

  lemma {:induction false} HeldIsTyped(t: LType, v: Value)
    requires Held(t, v)
    ensures Typed(t, v) && Fits(t, v)
    decreases t, 0
  {
    if t.Submessage? {
      AllHeldIsTyped(t.fields, v.slots);
    }
  }

  lemma {:induction false} AllHeldIsTyped(fields: seq<Field>, slots: seq<seq<Value>>)
    requires AllHeld(fields, slots)
    ensures AllTyped(fields, slots) && AllFit(fields, slots, 0)
    decreases fields, 0
  {
    forall i | 0 <= i < |fields|
      ensures SlotTyped(fields[i], slots[i]) && SlotFits(fields[i], slots[i])
    {
      SlotHeldIsTyped(fields[i], slots[i]);
    }
    SlotsAllFit(fields, slots, 0);
  }

  lemma {:induction false} SlotHeldIsTyped(f: Field, items: seq<Value>)
    requires SlotHeld(f, items)
    ensures SlotTyped(f, items) && SlotFits(f, items)
    decreases f, 0
  {
    forall k | 0 <= k < |items|
      ensures Typed(f.ltype, items[k]) && Fits(f.ltype, items[k])
    {
      HeldIsTyped(f.ltype, items[k]);
    }
    ItemsAllFit(f, items, 0);
  }

  lemma {:induction false} ItemsAllFit(f: Field, items: seq<Value>, k: nat)
    requires k <= |items| && forall j :: 0 <= j < |items| ==> Typed(f.ltype, items[j]) && Fits(f.ltype, items[j])
    ensures ItemsFit(f, items, k)
    decreases |items| - k
  {
    if k < |items| {
      ItemsAllFit(f, items, k + 1);
    }
  }

  lemma {:induction false} SlotsAllFit(fields: seq<Field>, slots: seq<seq<Value>>, i: nat)
    requires AllTyped(fields, slots) && i <= |fields|
    requires forall j :: 0 <= j < |fields| ==> SlotFits(fields[j], slots[j])
    ensures AllFit(fields, slots, i)
    decreases |fields| - i
  {
    if i < |fields| {
      SlotsAllFit(fields, slots, i + 1);
    }
  }

  // ---------- defaults ----------

  lemma {:induction false} DefaultIsHeld(t: LType)
    requires DescribedType(t)
    ensures Held(t, DefaultValue(t))
    decreases t, 0
  {
    if t.Submessage? {
      DefaultsAreHeld(t.fields);
    }
  }

  lemma {:induction false} DefaultsAreHeld(fields: seq<Field>)
    requires Described(fields)
    ensures AllHeld(fields, Defaults(fields))
    decreases fields, 0
  {
    forall i | 0 <= i < |fields|
      ensures SlotHeld(fields[i], Defaults(fields)[i])
    {
      DefaultSlotIsHeld(fields[i]);
    }
  }

  lemma {:induction false} DefaultSlotIsHeld(f: Field)
    requires DescribedField(f)
    ensures SlotHeld(f, DefaultSlot(f))
    decreases f, 0
  {
    DefaultIsHeld(f.ltype);
    if f.htype.FixedCount? {
      CopiesAre(f.htype.count, DefaultValue(f.ltype));
    }
  }

  lemma {:induction false} CopiesAre(n: nat, v: Value)
    ensures forall k :: 0 <= k < n ==> Copies(n, v)[k] == v
  {
    if n > 0 {
      CopiesAre(n - 1, v);
    }
  }

  // ---------- plain values ----------

  lemma {:induction false} UpToZeroIsShort(b: Bytes)
    ensures 0 !in UpToZero(b) && |UpToZero(b)| <= |b|
  {
    if b != [] && b[0] != 0 {
      UpToZeroIsShort(b[1..]);
    }
  }

  lemma SignedFits(n: int, size: nat)
    requires ValidSize(size)
    ensures IsSigned(Signed(n, size), size)
  {
    var b := Bits(size);
    assert 0 <= n % b < b;
  }

  lemma SizedIsHeld(t: LType, v: nat)
    requires (t.Int? || t.Uint? || t.Zigzag?) && TakeSized(t, v).Some?
    ensures Held(t, TakeSized(t, v).value)
  {
    if t.Int? {
      SignedFits(if t.size == 8 then Signed(v, 8) else Signed(v, 4), t.size);
    } else if t.Zigzag? {
      SignedFits(UnZigZag(v), t.size);
    } else {
      assert 0 <= v % Bits(t.size) < Bits(t.size);
    }
    hide Signed, UnZigZag;
  }

  lemma PlainIsHeld(t: LType, input: Bytes)
    requires TakePlain(t, input).Some?
    ensures Held(t, TakePlain(t, input).value.value)
  {
    if t.Int? || t.Uint? || t.Zigzag? {
      SizedIsHeld(t, Take64(input).value.value);
      hide TakeSized, Take64;
    } else if t.StringOf? {
      UpToZeroIsShort(TakeString(input).value.slice);
      hide TakeString, UpToZero;
    } else {
      hide TakeString, TakeVarint32, DecodeFixed32, DecodeFixed64;
    }
  }

  lemma {:induction false} PackedIsHeld(t: LType, input: Bytes, items: seq<Value>, room: nat)
    requires Packable(t) && ItemsHeld(t, items) && |items| <= room && TakePacked(t, input, items, room).Some?
    ensures var r := TakePacked(t, input, items, room).value; ItemsHeld(t, r) && |r| <= room
    decreases |input|
  {
    if input != [] {
      PlainIsHeld(t, input);
      var v := TakePlain(t, input).value;
      hide TakePlain, Held;
      PackedIsHeld(t, v.rest, items + [v.value], room);
    }
  }

  // ---------- fields and messages ----------

  /** While a message is decoded: all slots are held, but the fixed array that is being
      filled may be short. */
  ghost predicate Decoding(fields: seq<Field>, st: State) {
    && |st.slots| == |fields|
    && forall i :: 0 <= i < |fields| ==> SlotHeld(fields[i], st.slots[i]) || PartlyHeld(fields, st, i)
  }

  ghost predicate PartlyHeld(fields: seq<Field>, st: State, i: nat)
    requires i < |fields| == |st.slots|
  {
    && st.fixed == Some(i) && fields[i].htype.FixedCount? && |st.slots[i]| <= fields[i].htype.count
    && ItemsHeld(fields[i].ltype, st.slots[i])
  }

  lemma {:induction false} ValueIsHeld(t: LType, input: Bytes, base: Value)
    requires DescribedType(t) && Held(t, base) && TakeValue(t, input, base).Some?
    ensures Held(t, TakeValue(t, input, base).value.value)
    decreases |input|, 0
  {
    if t.Submessage? {
      var s := TakeString(input).value;
      MessageIsHeld(t.fields, s.slice, base.slots);
    } else {
      PlainIsHeld(t, input);
    }
  }

  lemma {:induction false} ItemsAreHeld(t: LType, wire: nat, input: Bytes, items: seq<Value>, room: nat)
    requires DescribedType(t) && ItemsHeld(t, items) && |items| <= room && TakeItems(t, wire, input, items, room).Some?
    ensures var r := TakeItems(t, wire, input, items, room).value.0; ItemsHeld(t, r) && |r| <= room
    decreases |input|, 1
  {
    if wire == STRING_WIRE && Packable(t) {
      var s := TakeString(input).value;
      hide TakeString, Held;
      PackedIsHeld(t, s.slice, items, room);
    } else {
      DefaultIsHeld(t);
      ValueIsHeld(t, input, DefaultValue(t));
      hide TakeValue, Held;
    }
  }

  lemma {:induction false} FieldIsHeld(fields: seq<Field>, i: nat, wire: nat, input: Bytes, st: State)
    requires Described(fields) && Decoding(fields, st) && i < |fields|
    requires DecodeField(fields, i, wire, input, st).Some?
    ensures Decoding(fields, DecodeField(fields, i, wire, input, st).value.state)
    decreases |input|, 2
  {
    var f := fields[i];
    match f.htype
    case Repeated(arraySize) =>
      ItemsAreHeld(f.ltype, wire, input, st.slots[i], arraySize);
      hide TakeItems, ItemsHeld, Held, DescribedType;
    case FixedCount(count) =>
      ItemsAreHeld(f.ltype, wire, input, if st.fixed == Some(i) then st.slots[i] else [], count);
      hide TakeItems, ItemsHeld, Held, DescribedType;
    case _ =>
      BaseIsHeld(f.ltype, Exclusive(fields, st.slots, i)[i]);
      ValueIsHeld(f.ltype, input, Base(f.ltype, Exclusive(fields, st.slots, i)[i]));
      hide TakeValue, Held, DescribedType, Base, Decoding;
      var v := TakeValue(f.ltype, input, Base(f.ltype, Exclusive(fields, st.slots, i)[i])).value.value;
      SingleIsHeld(fields, i, st, v, if f.htype.Required? then st.seen + {i} else st.seen);
  }

  lemma SingleIsHeld(fields: seq<Field>, i: nat, st: State, v: Value, seen: set<nat>)
    requires Decoding(fields, st) && i < |fields| && Held(fields[i].ltype, v)
    requires !fields[i].htype.Repeated? && !fields[i].htype.FixedCount?
    ensures Decoding(fields, State(Exclusive(fields, st.slots, i)[i := [v]], seen, st.fixed))
  {
    hide Held;
    var t := State(Exclusive(fields, st.slots, i)[i := [v]], seen, st.fixed);
    forall j | 0 <= j < |fields|
      ensures SlotHeld(fields[j], t.slots[j]) || PartlyHeld(fields, t, j)
    {
      if j != i && !SlotHeld(fields[j], st.slots[j]) {
        assert PartlyHeld(fields, st, j);
        assert t.slots[j] == st.slots[j];
      }
    }
  }

  lemma BaseIsHeld(t: LType, items: seq<Value>)
    requires DescribedType(t) && ItemsHeld(t, items)
    ensures Held(t, Base(t, items))
  {
    DefaultIsHeld(t);
  }

  lemma {:induction false} LoopIsHeld(fields: seq<Field>, input: Bytes, st: State)
    requires Described(fields) && Decoding(fields, st) && Loop(fields, input, st).Some?
    ensures Decoding(fields, Loop(fields, input, st).value)
    decreases |input|, 3
  {
    if input != [] {
      var tag := TakeTag(input);
      if tag.Tag? {
        var i := Find(fields, tag.number);
        if i.None? {
          LoopIsHeld(fields, Skip(tag.wire, tag.rest).value, st);
        } else {
          FieldIsHeld(fields, i.value, tag.wire, tag.rest, st);
          var a := DecodeField(fields, i.value, tag.wire, tag.rest, st).value;
          LoopIsHeld(fields, a.rest, a.state);
        }
      }
    }
  }

  /** Over any bytes, and into any struct within its storage. */
  lemma {:induction false} MessageIsHeld(fields: seq<Field>, input: Bytes, slots: seq<seq<Value>>)
    requires Described(fields) && AllHeld(fields, slots) && DecodeMessage(fields, input, slots).Some?
    ensures AllHeld(fields, DecodeMessage(fields, input, slots).value)
    decreases |input|, 4
  {
    LoopIsHeld(fields, input, State(slots, {}, None));
    hide Loop, SlotHeld, Described;
  }

  /** Whatever was decoded can be encoded again. */
  lemma DecodedCanBeEncoded(fields: seq<Field>, input: Bytes)
    requires Described(fields) && DecodeMessage(fields, input, Defaults(fields)).Some?
    ensures var r := DecodeMessage(fields, input, Defaults(fields)).value;
      AllHeld(fields, r) && AllTyped(fields, r) && AllFit(fields, r, 0)
  {
    DefaultsAreHeld(fields);
    MessageIsHeld(fields, input, Defaults(fields));
    AllHeldIsTyped(fields, DecodeMessage(fields, input, Defaults(fields)).value);
  }
}
