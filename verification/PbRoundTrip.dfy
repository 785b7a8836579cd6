/** What nanopb encodes it decodes back, exactly when every string is closed by a zero byte
    within its storage (pb_encode.c, pb_decode.c). */
module PbRoundTrip {
  import opened Wrappers
  import opened DbFormat
  import opened Coding
  import opened PbMessages
  import opened PbDecoders

  // ---------- what is asked of a message ----------

  predicate SameUnion(fields: seq<Field>, i: nat, j: nat)
    requires i < |fields| && j < |fields|
  {
    i != j && fields[i].htype.Oneof? && fields[j].htype == fields[i].htype
  }

  /** A union holds one of its members at most. */
  predicate OneMember(fields: seq<Field>, slots: seq<seq<Value>>)
    requires |slots| == |fields|
  {
    forall i, j :: 0 <= i < |fields| && 0 <= j < |fields| && SameUnion(fields, i, j) && slots[i] != [] ==> slots[j] == []
  }

  /** Counters and sizes within the storage, and no length beyond 32 bits. */
  predicate Sane(t: LType, v: Value)
    requires Typed(t, v)
  {
    match t
    case BytesOf(max) => |v.bytes| <= max && |v.bytes| < TWO_TO_32
    case StringOf(_) => |v.bytes| < TWO_TO_32
    case FixedBytes(length) => length < TWO_TO_32
    case Submessage(fields) => SaneMessage(fields, v.slots) && |MessageBytes(fields, v.slots, 0)| < TWO_TO_32
    case _ => true
  }

  predicate SaneMessage(fields: seq<Field>, slots: seq<seq<Value>>)
    requires AllTyped(fields, slots)
    decreases fields, |fields| + 1
  {
    WellFormed(fields) && OneMember(fields, slots) && AllSane(fields, slots, 0)
  }

  predicate AllSane(fields: seq<Field>, slots: seq<seq<Value>>, i: nat)
    requires AllTyped(fields, slots) && i <= |fields|
    decreases fields, |fields| - i
  {
    i == |fields| || (SlotSane(fields[i], slots[i]) && AllSane(fields, slots, i + 1))
  }

  predicate SlotSane(f: Field, items: seq<Value>)
    requires SlotTyped(f, items)
    decreases f, 1
  {
    && (f.htype.Repeated? ==> |items| <= f.htype.arraySize)
    && (Arrayed(f.htype) && Packable(f.ltype) ==> |PackedBytes(f, items, 0)| < TWO_TO_32)
    && ItemsSane(f, items, 0)
  }

  predicate ItemsSane(f: Field, items: seq<Value>, k: nat)
    requires k <= |items| && forall j :: 0 <= j < |items| ==> Typed(f.ltype, items[j])
    decreases f, 0, |items| - k
  {
    k == |items| || (Sane(f.ltype, items[k]) && ItemsSane(f, items, k + 1))
  }

  /** There is room for the zero byte after every string that is written. */
  predicate Closed(t: LType, v: Value)
    requires Typed(t, v)
  {
    match t
    case StringOf(storage) => |v.bytes| < storage
    case Submessage(fields) => AllClosed(fields, v.slots, 0)
    case _ => true
  }

  predicate AllClosed(fields: seq<Field>, slots: seq<seq<Value>>, i: nat)
    requires AllTyped(fields, slots) && i <= |fields|
    decreases fields, |fields| - i
  {
    i == |fields| || (SlotClosed(fields[i], slots[i]) && AllClosed(fields, slots, i + 1))
  }

  predicate SlotClosed(f: Field, items: seq<Value>)
    requires SlotTyped(f, items)
    decreases f, 1
  {
    Written(f, items) ==> ItemsClosed(f, items, 0)
  }

  predicate ItemsClosed(f: Field, items: seq<Value>, k: nat)
    requires k <= |items| && forall j :: 0 <= j < |items| ==> Typed(f.ltype, items[j])
    decreases f, 0, |items| - k
  {
    k == |items| || (Closed(f.ltype, items[k]) && ItemsClosed(f, items, k + 1))
  }

  // ---------- defaults ----------

  /** What a proto3 field that is left out is decoded as. */
  lemma {:induction false} DefaultIs(t: LType, v: Value)
    requires Typed(t, v) && IsDefault(t, v)
    ensures v == DefaultValue(t)
    decreases t, 0
  {
    match t
    case Submessage(fields) => AllDefaultsAre(fields, v.slots, 0);
    case FixedBytes(_) => assert v.bytes == [];
    case _ =>
  }

  lemma {:induction false} AllDefaultsAre(fields: seq<Field>, slots: seq<seq<Value>>, i: nat)
    requires AllTyped(fields, slots) && i <= |fields| && AllDefault(fields, slots, i)
    ensures forall j :: i <= j < |fields| ==> slots[j] == DefaultSlot(fields[j])
    ensures i == 0 ==> slots == Defaults(fields)
    decreases fields, |fields| - i
  {
    if i < |fields| {
      SlotDefaultIs(fields[i], slots[i]);
      AllDefaultsAre(fields, slots, i + 1);
    }
  }

  lemma {:induction false} SlotDefaultIs(f: Field, items: seq<Value>)
    requires SlotTyped(f, items) && SlotDefault(f, items)
    ensures items == DefaultSlot(f)
    decreases f, 0
  {
    if f.htype.Singular? {
      DefaultIs(f.ltype, items[0]);
    }
  }

  /** Whether a field is left out that holds nothing but defaults: required fields and fixed
      arrays inside it keep it. */
  predicate Omissible(t: LType) {
    match t
    case FixedBytes(length) => length == 0
    case Submessage(fields) => forall i :: 0 <= i < |fields| ==> OmissibleField(fields[i])
    case _ => true
  }

  predicate OmissibleField(f: Field) {
    !f.htype.Required? && !f.htype.FixedCount? && (f.htype.Singular? ==> Omissible(f.ltype))
  }

  /** pb_check_proto3_default_value finds just the values that decoding would put there. */
  lemma {:induction false} DefaultIff(t: LType, v: Value)
    requires Typed(t, v)
    ensures IsDefault(t, v) <==> v == DefaultValue(t) && Omissible(t)
    decreases t, 0
  {
    if IsDefault(t, v) {
      DefaultIs(t, v);
    }
    if t.Submessage? {
      AllDefaultIff(t.fields, v.slots, 0);
      assert v.slots == Defaults(t.fields) <==>
        forall j :: 0 <= j < |t.fields| ==> v.slots[j] == DefaultSlot(t.fields[j]);
    }
  }

  lemma {:induction false} AllDefaultIff(fields: seq<Field>, slots: seq<seq<Value>>, i: nat)
    requires AllTyped(fields, slots) && i <= |fields|
    ensures AllDefault(fields, slots, i) <==>
      forall j :: i <= j < |fields| ==> slots[j] == DefaultSlot(fields[j]) && OmissibleField(fields[j])
    decreases fields, |fields| - i
  {
    if i < |fields| {
      SlotDefaultIff(fields[i], slots[i]);
      AllDefaultIff(fields, slots, i + 1);
    }
  }

  lemma {:induction false} SlotDefaultIff(f: Field, items: seq<Value>)
    requires SlotTyped(f, items)
    ensures SlotDefault(f, items) <==> items == DefaultSlot(f) && OmissibleField(f)
    decreases f, 0
  {
    if f.htype.Singular? {
      DefaultIff(f.ltype, items[0]);
      assert items == [items[0]];
    }
  }

  // ---------- tags ----------

  lemma TagBack(tag: nat, wire: nat, rest: Bytes)
    requires 0 < tag < 0x2000_0000 && wire < 8
    ensures TakeTag(TagBytes(tag, wire) + rest) == Tag(tag, wire, rest)
  {
    Varint32Back(tag * 8 + wire, rest);
  }

  /** A field with its tag is taken off the front of the input. */
  lemma LoopStep(fields: seq<Field>, i: nat, wire: nat, rest: Bytes, st: State)
    requires |st.slots| == |fields| && WellFormed(fields) && i < |fields| && wire < 8
    ensures var a := DecodeField(fields, i, wire, rest, st);
      Loop(fields, TagBytes(fields[i].tag, wire) + rest, st) ==
        if a.None? then None else Loop(fields, a.value.rest, a.value.state)
  {
    TagBack(fields[i].tag, wire, rest);
    FindIs(fields, i);
    assert TagBytes(fields[i].tag, wire) + rest != [];
    hide TagBytes, TakeTag, Find, DecodeField;
  }

  // ---------- one field ----------

  /** The state after fields before `i`: their slots are filled, the others hold defaults. */
  ghost predicate StateAt(fields: seq<Field>, slots: seq<seq<Value>>, i: nat, st: State)
    requires |slots| == |fields|
  {
    && i <= |fields| && |st.slots| == |fields|
    && (forall j :: 0 <= j < i ==> st.slots[j] == slots[j])
    && (forall j :: i <= j < |fields| ==> st.slots[j] == DefaultSlot(fields[j]))
    && (forall j :: 0 <= j < i && fields[j].htype.Required? ==> j in st.seen)
    && FixedComplete(fields, st) && (st.fixed.Some? ==> st.fixed.value < i)
  }

  /** What a value decodes to: itself, unless a string in it is not closed. */
  ghost predicate ValueBack(t: LType, v: Value, rest: Bytes)
    requires Typed(t, v)
  {
    TakeValue(t, ValueBytes(t, v) + rest, DefaultValue(t)) == if Closed(t, v) then Some(Got(v, rest)) else None
  }

  lemma {:induction false} StringNotClosed(storage: nat, b: Bytes, rest: Bytes)
    requires |b| < TWO_TO_32 && |b| >= storage
    ensures TakePlain(StringOf(storage), Prefixed(b) + rest) == None
  {
    StringBack(b, rest);
    hide Prefixed, TakeString;
  }

  lemma PlainValueBack(t: LType, v: Value, rest: Bytes)
    requires Typed(t, v) && !t.Submessage? && Sane(t, v)
    ensures ValueBack(t, v, rest)
  {
    if Closed(t, v) {
      PlainBack(t, v, rest);
    } else {
      StringNotClosed(t.storage, v.bytes, rest);
    }
  }

  lemma {:induction false} PackedBack(f: Field, items: seq<Value>, k: nat, room: nat)
    requires k <= |items| <= room && Packable(f.ltype) && forall j :: 0 <= j < |items| ==> Typed(f.ltype, items[j])
    ensures TakePacked(f.ltype, PackedBytes(f, items, k), items[..k], room) == Some(items)
    decreases |items| - k
  {
    if k < |items| {
      NumberBack(f.ltype, items[k], PackedBytes(f, items, k + 1));
      PackedBack(f, items, k + 1, room);
      assert items[..k] + [items[k]] == items[..k + 1];
      hide TakePlain, ValueBytes;
    } else {
      assert items[..k] == items;
    }
  }

  lemma ExclusiveSame(fields: seq<Field>, slots: seq<seq<Value>>, i: nat, st: State)
    requires AllTyped(fields, slots) && i < |fields| && slots[i] != [] && OneMember(fields, slots) &&
      StateAt(fields, slots, i, st)
    ensures Exclusive(fields, st.slots, i) == st.slots
  {
    forall k | 0 <= k < |fields|
      ensures Exclusive(fields, st.slots, i)[k] == st.slots[k]
    {
      assert k != i && fields[i].htype.Oneof? && fields[k].htype == fields[i].htype ==> SameUnion(fields, i, k);
    }
  }

  /** The state after a field that is not an array. */
  function AfterSingle(fields: seq<Field>, i: nat, v: Value, st: State): State
    requires |st.slots| == |fields| && i < |fields|
  {
    State(st.slots[i := [v]], if fields[i].htype.Required? then st.seen + {i} else st.seen, st.fixed)
  }

  lemma DecodeSingle(fields: seq<Field>, slots: seq<seq<Value>>, i: nat, v: Value, rest: Bytes, st: State)
    requires AllTyped(fields, slots) && i < |fields| && OneMember(fields, slots) && StateAt(fields, slots, i, st)
    requires slots[i] == [v] && !Arrayed(fields[i].htype) && Typed(fields[i].ltype, v) && ValueBack(fields[i].ltype, v, rest)
    ensures var t := fields[i].ltype;
      DecodeField(fields, i, WireOf(t), ValueBytes(t, v) + rest, st) ==
        if Closed(t, v) then Some(Advanced(AfterSingle(fields, i, v, st), rest)) else None
    ensures StateAt(fields, slots, i + 1, AfterSingle(fields, i, v, st))
  {
    hide TakeValue, Closed, ValueBytes, DefaultValue, Exclusive, OneMember, Typed;
    ExclusiveSame(fields, slots, i, st);
    assert Base(fields[i].ltype, st.slots[i]) == DefaultValue(fields[i].ltype);
  }

  // ---------- arrays ----------

  /** The items that an array has received. */
  function Received(fields: seq<Field>, i: nat, st: State): seq<Value>
    requires |st.slots| == |fields| && i < |fields|
  {
    if fields[i].htype.FixedCount? && st.fixed != Some(i) then [] else st.slots[i]
  }

  /** The state when the first `k` items of array `i` have come. */
  ghost predicate ArrayAt(fields: seq<Field>, slots: seq<seq<Value>>, i: nat, k: nat, st: State)
    requires |slots| == |fields|
  {
    && i < |fields| && |st.slots| == |fields| && k <= |slots[i]| && Arrayed(fields[i].htype)
    && (forall j :: 0 <= j < i ==> st.slots[j] == slots[j])
    && (forall j :: i < j < |fields| ==> st.slots[j] == DefaultSlot(fields[j]))
    && (forall j :: 0 <= j < i && fields[j].htype.Required? ==> j in st.seen)
    && Received(fields, i, st) == slots[i][..k]
    && (st.fixed != Some(i) ==> FixedComplete(fields, st) && (st.fixed.Some? ==> st.fixed.value < i))
    && (fields[i].htype.FixedCount? && k > 0 ==> st.fixed == Some(i))
    && (fields[i].htype.Repeated? ==> st.fixed != Some(i))
  }

  lemma ArrayBegins(fields: seq<Field>, slots: seq<seq<Value>>, i: nat, st: State)
    requires |slots| == |fields| && i < |fields| && Arrayed(fields[i].htype) && StateAt(fields, slots, i, st)
    ensures ArrayAt(fields, slots, i, 0, st)
  {
  }

  lemma ArrayEnds(fields: seq<Field>, slots: seq<seq<Value>>, i: nat, st: State)
    requires AllTyped(fields, slots) && i < |fields| && slots[i] != [] && ArrayAt(fields, slots, i, |slots[i]|, st)
    ensures StateAt(fields, slots, i + 1, st)
  {
    assert SlotTyped(fields[i], slots[i]);
    assert slots[i][..|slots[i]|] == slots[i];
  }

  function Room(h: HType): nat
    requires Arrayed(h)
  {
    if h.Repeated? then h.arraySize else h.count
  }

  /** The state once array `i` holds some items. */
  function AfterItems(fields: seq<Field>, i: nat, items: seq<Value>, st: State): State
    requires |st.slots| == |fields| && i < |fields|
  {
    st.(slots := st.slots[i := items], fixed := if fields[i].htype.FixedCount? then Some(i) else st.fixed)
  }

  lemma DecodeArray(fields: seq<Field>, slots: seq<seq<Value>>, i: nat, k: nat, wire: nat, input: Bytes, st: State)
    requires |slots| == |fields| && ArrayAt(fields, slots, i, k, st)
    ensures var f := fields[i]; var r := TakeItems(f.ltype, wire, input, slots[i][..k], Room(f.htype));
      DecodeField(fields, i, wire, input, st) ==
        if r.None? then None else Some(Advanced(AfterItems(fields, i, r.value.0, st), r.value.1))
  {
    hide TakeItems;
  }

  lemma ItemsArrived(fields: seq<Field>, slots: seq<seq<Value>>, i: nat, k: nat, n: nat, st: State)
    requires |slots| == |fields| && ArrayAt(fields, slots, i, k, st) && k < n <= |slots[i]|
    ensures ArrayAt(fields, slots, i, n, AfterItems(fields, i, slots[i][..n], st))
  {
  }

  lemma DecodePacked(fields: seq<Field>, slots: seq<seq<Value>>, i: nat, rest: Bytes, st: State)
    requires AllTyped(fields, slots) && i < |fields| && ArrayAt(fields, slots, i, 0, st)
    requires slots[i] != [] && Packable(fields[i].ltype) && SlotTyped(fields[i], slots[i]) && SlotSane(fields[i], slots[i])
    ensures var p := PackedBytes(fields[i], slots[i], 0);
      DecodeField(fields, i, STRING_WIRE, Prefixed(p) + rest, st) == Some(Advanced(AfterItems(fields, i, slots[i], st), rest))
    ensures StateAt(fields, slots, i + 1, AfterItems(fields, i, slots[i], st))
  {
    var f, items := fields[i], slots[i];
    var p := PackedBytes(f, items, 0);
    PackedBack(f, items, 0, Room(f.htype));
    StringBack(p, rest);
    assert items[..0] == [] && items[..|items|] == items;
    DecodeArray(fields, slots, i, 0, STRING_WIRE, Prefixed(p) + rest, st);
    ItemsArrived(fields, slots, i, 0, |items|, st);
    ArrayEnds(fields, slots, i, AfterItems(fields, i, items, st));
    hide ArrayAt, StateAt, DecodeField, TakePacked, TakeString, Prefixed, PackedBytes, AfterItems;
  }

  lemma DecodeItem(fields: seq<Field>, slots: seq<seq<Value>>, i: nat, k: nat, rest: Bytes, st: State)
    requires AllTyped(fields, slots) && ArrayAt(fields, slots, i, k, st) && SlotTyped(fields[i], slots[i])
    requires k < |slots[i]| <= Room(fields[i].htype) && !Packable(fields[i].ltype)
    requires ValueBack(fields[i].ltype, slots[i][k], rest)
    ensures var f, v := fields[i], slots[i][k];
      DecodeField(fields, i, WireOf(f.ltype), ValueBytes(f.ltype, v) + rest, st) ==
        if Closed(f.ltype, v) then Some(Advanced(AfterItems(fields, i, slots[i][..k + 1], st), rest)) else None
    ensures ArrayAt(fields, slots, i, k + 1, AfterItems(fields, i, slots[i][..k + 1], st))
  {
    var f, v := fields[i], slots[i][k];
    DecodeArray(fields, slots, i, k, WireOf(f.ltype), ValueBytes(f.ltype, v) + rest, st);
    ItemsArrived(fields, slots, i, k, k + 1, st);
    assert slots[i][..k] + [v] == slots[i][..k + 1];
    hide ArrayAt, DecodeField, TakeValue, Closed, ValueBytes, AfterItems;
  }

  lemma Regroup(a: Bytes, b: Bytes, c: Bytes, rest: Bytes)
    ensures a + (b + c) + rest == a + (b + (c + rest))
  {
  }

  // ---------- the round trip ----------

  lemma {:induction false} ValueReadsBack(t: LType, v: Value, rest: Bytes)
    requires Typed(t, v) && Sane(t, v)
    ensures ValueBack(t, v, rest)
    decreases t, 0
  {
    if t.Submessage? {
      var m := MessageBytes(t.fields, v.slots, 0);
      StringBack(m, rest);
      MessageReadsBack(t.fields, v.slots);
      hide MessageBytes, DecodeMessage, TakeString, Prefixed, AllClosed;
    } else {
      PlainValueBack(t, v, rest);
    }
  }

  /** Items of an array that are written one by one. */
  lemma {:induction false} ItemsReadBack(f: Field, fields: seq<Field>, slots: seq<seq<Value>>, i: nat, k: nat,
                                         rest: Bytes, st: State)
    returns (st2: State)
    requires AllTyped(fields, slots) && WellFormed(fields) && ArrayAt(fields, slots, i, k, st) && f == fields[i]
    requires SlotTyped(f, slots[i]) && 0 < |slots[i]| <= Room(f.htype) && !Packable(f.ltype) && ItemsSane(f, slots[i], k)
    ensures |st2.slots| == |fields|
    ensures Loop(fields, UnpackedBytes(f, slots[i], k) + rest, st) ==
      if ItemsClosed(f, slots[i], k) then Loop(fields, rest, st2) else None
    ensures ItemsClosed(f, slots[i], k) ==> StateAt(fields, slots, i + 1, st2)
    decreases f, 1, |slots[i]| - k
  {
    st2 := st;
    if k == |slots[i]| {
      ArrayEnds(fields, slots, i, st);
      assert [] + rest == rest;
    } else {
      var v, more := slots[i][k], UnpackedBytes(f, slots[i], k + 1);
      ValueReadsBack(f.ltype, v, more + rest);
      Regroup(TagBytes(f.tag, WireOf(f.ltype)), ValueBytes(f.ltype, v), more, rest);
      LoopStep(fields, i, WireOf(f.ltype), ValueBytes(f.ltype, v) + (more + rest), st);
      DecodeItem(fields, slots, i, k, more + rest, st);
      var next := AfterItems(fields, i, slots[i][..k + 1], st);
      st2 := ItemsReadBack(f, fields, slots, i, k + 1, rest, next);
      hide ArrayAt, StateAt, Loop, DecodeField, TakeValue, Closed, ValueBytes, TagBytes, AfterItems, ValueBack, Typed,
        WellFormed;
    }
  }

  /** A field that is not written has what it is reset to. */
  lemma NothingReadsBack(fields: seq<Field>, slots: seq<seq<Value>>, i: nat, st: State)
    requires AllTyped(fields, slots) && i < |fields| && StateAt(fields, slots, i, st) && SlotTyped(fields[i], slots[i])
    requires slots[i] == [] || !Written(fields[i], slots[i])
    ensures StateAt(fields, slots, i + 1, st) && SlotClosed(fields[i], slots[i])
  {
    if slots[i] != [] {
      DefaultIs(fields[i].ltype, slots[i][0]);
    }
  }

  lemma {:induction false} NumbersClosed(f: Field, items: seq<Value>, k: nat)
    requires k <= |items| && Packable(f.ltype) && forall j :: 0 <= j < |items| ==> Typed(f.ltype, items[j])
    ensures ItemsClosed(f, items, k)
    decreases |items| - k
  {
    if k < |items| {
      NumbersClosed(f, items, k + 1);
    }
  }

  lemma PackedReadsBack(fields: seq<Field>, slots: seq<seq<Value>>, i: nat, rest: Bytes, st: State) returns (st2: State)
    requires AllTyped(fields, slots) && WellFormed(fields) && i < |fields| && StateAt(fields, slots, i, st)
    requires SlotTyped(fields[i], slots[i]) && SlotSane(fields[i], slots[i]) && slots[i] != []
    requires Arrayed(fields[i].htype) && Packable(fields[i].ltype)
    ensures |st2.slots| == |fields| && SlotClosed(fields[i], slots[i]) && StateAt(fields, slots, i + 1, st2)
    ensures Loop(fields, FieldBytes(fields[i], slots[i]) + rest, st) == Loop(fields, rest, st2)
  {
    var f, p := fields[i], PackedBytes(fields[i], slots[i], 0);
    NumbersClosed(f, slots[i], 0);
    ArrayBegins(fields, slots, i, st);
    DecodePacked(fields, slots, i, rest, st);
    st2 := AfterItems(fields, i, slots[i], st);
    LoopStep(fields, i, STRING_WIRE, Prefixed(p) + rest, st);
    Joined(TagBytes(f.tag, STRING_WIRE), Prefixed(p), rest);
    hide StateAt, ArrayAt, Loop, DecodeField, Prefixed, PackedBytes, TagBytes, WellFormed, ItemsClosed, SlotSane, Typed;
  }

  lemma {:induction false} SingleReadsBack(f: Field, fields: seq<Field>, slots: seq<seq<Value>>, i: nat, rest: Bytes,
                                           st: State)
    returns (st2: State)
    requires AllTyped(fields, slots) && WellFormed(fields) && OneMember(fields, slots) && i < |fields| && f == fields[i]
    requires StateAt(fields, slots, i, st) && SlotTyped(f, slots[i]) && SlotSane(f, slots[i])
    requires !Arrayed(f.htype) && slots[i] != [] && Written(f, slots[i])
    ensures |st2.slots| == |fields| && StateAt(fields, slots, i + 1, st2)
    ensures Loop(fields, FieldBytes(f, slots[i]) + rest, st) ==
      if SlotClosed(f, slots[i]) then Loop(fields, rest, st2) else None
    decreases f, 1
  {
    var v := slots[i][0];
    assert slots[i] == [v];
    ValueReadsBack(f.ltype, v, rest);
    DecodeSingle(fields, slots, i, v, rest, st);
    st2 := AfterSingle(fields, i, v, st);
    LoopStep(fields, i, WireOf(f.ltype), ValueBytes(f.ltype, v) + rest, st);
    Regroup(TagBytes(f.tag, WireOf(f.ltype)), ValueBytes(f.ltype, v), [], rest);
    assert [] + rest == rest;
    OneItem(f, v);
    hide StateAt, Loop, DecodeField, ValueBytes, TagBytes, Closed, Typed, AfterSingle, WellFormed, OneMember;
  }

  lemma OneItem(f: Field, v: Value)
    requires Typed(f.ltype, v)
    ensures UnpackedBytes(f, [v], 0) == TagBytes(f.tag, WireOf(f.ltype)) + (ValueBytes(f.ltype, v) + [])
    ensures ItemsClosed(f, [v], 0) <==> Closed(f.ltype, v)
  {
  }

  /** All that a field was written as. */
  lemma {:induction false} FieldReadsBack(f: Field, fields: seq<Field>, slots: seq<seq<Value>>, i: nat, rest: Bytes,
                                          st: State)
    returns (st2: State)
    requires AllTyped(fields, slots) && WellFormed(fields) && OneMember(fields, slots) && i < |fields| && f == fields[i]
    requires StateAt(fields, slots, i, st) && SlotTyped(f, slots[i]) && SlotSane(f, slots[i])
    ensures |st2.slots| == |fields|
    ensures Loop(fields, FieldBytes(f, slots[i]) + rest, st) ==
      if SlotClosed(f, slots[i]) then Loop(fields, rest, st2) else None
    ensures SlotClosed(f, slots[i]) ==> StateAt(fields, slots, i + 1, st2)
    decreases f, 2
  {
    var items := slots[i];
    if items == [] || !Written(f, items) {
      st2 := st;
      NothingReadsBack(fields, slots, i, st);
      assert [] + rest == rest;
    } else if !Arrayed(f.htype) {
      st2 := SingleReadsBack(f, fields, slots, i, rest, st);
    } else if Packable(f.ltype) {
      st2 := PackedReadsBack(fields, slots, i, rest, st);
    } else {
      ArrayBegins(fields, slots, i, st);
      st2 := ItemsReadBack(f, fields, slots, i, 0, rest, st);
    }
    hide StateAt, ArrayAt, Loop, ItemsClosed, UnpackedBytes, WellFormed, OneMember;
  }

  lemma {:induction false} FieldsReadBack(fields: seq<Field>, slots: seq<seq<Value>>, i: nat, st: State) returns (end: State)
    requires AllTyped(fields, slots) && WellFormed(fields) && OneMember(fields, slots) && i <= |fields|
    requires AllSane(fields, slots, i) && StateAt(fields, slots, i, st)
    ensures Loop(fields, MessageBytes(fields, slots, i), st) == if AllClosed(fields, slots, i) then Some(end) else None
    ensures AllClosed(fields, slots, i) ==> StateAt(fields, slots, |fields|, end)
    decreases fields, |fields| - i
  {
    end := st;
    if i < |fields| {
      var rest := MessageBytes(fields, slots, i + 1);
      var st2 := FieldReadsBack(fields[i], fields, slots, i, rest, st);
      if SlotClosed(fields[i], slots[i]) {
        end := FieldsReadBack(fields, slots, i + 1, st2);
      }
      hide StateAt, Loop, FieldBytes, SlotClosed, WellFormed, OneMember;
    }
  }

  /** An encoded message decodes to itself if and only if its strings are closed. */
  lemma {:induction false} MessageReadsBack(fields: seq<Field>, slots: seq<seq<Value>>)
    requires AllTyped(fields, slots) && SaneMessage(fields, slots)
    ensures DecodeMessage(fields, MessageBytes(fields, slots, 0), Defaults(fields)) ==
      if AllClosed(fields, slots, 0) then Some(slots) else None
    decreases fields, |fields| + 1
  {
    var st := State(Defaults(fields), {}, None);
    assert StateAt(fields, slots, 0, st);
    var end := FieldsReadBack(fields, slots, 0, st);
    if AllClosed(fields, slots, 0) {
      assert end.slots == slots;
    }
    hide MessageBytes, Loop;
  }
}
