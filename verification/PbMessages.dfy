/** Message descriptors and message structs of nanopb (pb.h): static fields, and what the
    encoder writes for them (pb_encode.c). */
module PbMessages {
  import opened DbFormat
  import opened Coding

  /** The data type of a field, with the size of its storage. */
  datatype LType =
    | Bool
    | Int(size: nat)
    | Uint(size: nat)
    | Zigzag(size: nat)
    | Fixed32
    | Fixed64
    | BytesOf(max: nat)
    | StringOf(storage: nat)
    | Submessage(fields: seq<Field>)
    | FixedBytes(length: nat)

  /** How often a field occurs: `Optional` has a flag in the struct, `Singular` (proto3) has
      none, the counter of `FixedCount` is not in the struct, the fields of a union share one
      tag. */
  datatype HType = Required | Optional | Singular | Repeated(arraySize: nat) | FixedCount(count: nat) | Oneof(union: nat)

  datatype Field = Field(tag: nat, htype: HType, ltype: LType)

  /** The items of a field that are present; a struct has one slot for each field. */
  datatype Value = Num(n: int) | Raw(bytes: Bytes) | Msg(slots: seq<seq<Value>>)

  // ---------- what a C struct can hold ----------

  function Bits(size: nat): nat {
    if size == 1 then 0x100 else if size == 2 then 0x1_0000 else if size == 4 then TWO_TO_32 else TWO_TO_64
  }

  predicate ValidSize(size: nat) {
    size == 1 || size == 2 || size == 4 || size == 8
  }

  predicate IsUnsigned(n: int, size: nat) {
    0 <= n < Bits(size)
  }

  predicate IsSigned(n: int, size: nat) {
    0 <= 2 * n + Bits(size) < 2 * Bits(size)
  }

  /** A value of the type of the field.  A string ends at its first zero byte. */
  predicate Typed(t: LType, v: Value) {
    match t
    case Bool => v.Num? && (v.n == 0 || v.n == 1)
    case Int(size) => ValidSize(size) && v.Num? && IsSigned(v.n, size)
    case Uint(size) => ValidSize(size) && v.Num? && IsUnsigned(v.n, size)
    case Zigzag(size) => ValidSize(size) && v.Num? && IsSigned(v.n, size)
    case Fixed32 => v.Num? && IsUnsigned(v.n, 4)
    case Fixed64 => v.Num? && IsUnsigned(v.n, 8)
    case BytesOf(_) => v.Raw?
    case StringOf(storage) => v.Raw? && 0 !in v.bytes && |v.bytes| <= storage
    case Submessage(fields) => v.Msg? && AllTyped(fields, v.slots)
    case FixedBytes(length) => v.Raw? && |v.bytes| == length
  }

  predicate AllTyped(fields: seq<Field>, slots: seq<seq<Value>>) {
    |slots| == |fields| && forall i :: 0 <= i < |fields| ==> SlotTyped(fields[i], slots[i])
  }

  predicate SlotTyped(f: Field, items: seq<Value>) {
    && CountTyped(f.htype, |items|)
    && forall k :: 0 <= k < |items| ==> Typed(f.ltype, items[k])
  }

  /** The counter of an array may say anything. */
  predicate CountTyped(h: HType, n: nat) {
    match h
    case Required => n == 1
    case Optional => n <= 1
    case Singular => n == 1
    case Repeated(_) => true
    case FixedCount(count) => n == count
    case Oneof(_) => n <= 1
  }

  // ---------- what the encoder refuses ----------

  predicate Fits(t: LType, v: Value)
    requires Typed(t, v)
  {
    match t
    case BytesOf(max) => |v.bytes| <= max
    case Submessage(fields) => AllFit(fields, v.slots, 0)
    case _ => true
  }

  /** No counter is beyond its array, and no size beyond its storage, from field `i` on. */
  predicate AllFit(fields: seq<Field>, slots: seq<seq<Value>>, i: nat)
    requires AllTyped(fields, slots) && i <= |fields|
    decreases fields, |fields| - i
  {
    i == |fields| || (SlotFits(fields[i], slots[i]) && AllFit(fields, slots, i + 1))
  }

  predicate SlotFits(f: Field, items: seq<Value>)
    requires SlotTyped(f, items)
    decreases f, 1
  {
    && (f.htype.Repeated? ==> |items| <= f.htype.arraySize)
    && (Written(f, items) ==> ItemsFit(f, items, 0))
  }

  predicate ItemsFit(f: Field, items: seq<Value>, k: nat)
    requires k <= |items| && forall j :: 0 <= j < |items| ==> Typed(f.ltype, items[j])
    decreases f, 0, |items| - k
  {
    k == |items| || (Fits(f.ltype, items[k]) && ItemsFit(f, items, k + 1))
  }

  // ---------- proto3 defaults ----------

  /** pb_check_proto3_default_value. */
  predicate IsDefault(t: LType, v: Value)
    requires Typed(t, v)
  {
    match t
    case BytesOf(_) => v.bytes == []
    case StringOf(_) => v.bytes == []
    case FixedBytes(length) => length == 0
    case Submessage(fields) => AllDefault(fields, v.slots, 0)
    case _ => v.n == 0
  }

  predicate AllDefault(fields: seq<Field>, slots: seq<seq<Value>>, i: nat)
    requires AllTyped(fields, slots) && i <= |fields|
    decreases fields, |fields| - i
  {
    i == |fields| || (SlotDefault(fields[i], slots[i]) && AllDefault(fields, slots, i + 1))
  }

  predicate SlotDefault(f: Field, items: seq<Value>)
    requires SlotTyped(f, items)
  {
    match f.htype
    case Required => false
    case FixedCount(_) => false
    case Singular => IsDefault(f.ltype, items[0])
    case _ => items == []
  }

  /** A proto3 field is left out if it has its default value. */
  predicate Written(f: Field, items: seq<Value>)
    requires SlotTyped(f, items)
  {
    f.htype == Singular ==> !IsDefault(f.ltype, items[0])
  }

  // ---------- the bytes ----------

  function WireOf(t: LType): nat {
    match t
    case Fixed32 => 5
    case Fixed64 => 1
    case BytesOf(_) => 2
    case StringOf(_) => 2
    case Submessage(_) => 2
    case FixedBytes(_) => 2
    case _ => 0
  }

  const STRING_WIRE: nat := 2

  predicate Packable(t: LType) {
    !(t.BytesOf? || t.StringOf? || t.Submessage? || t.FixedBytes?)
  }

  function TagBytes(tag: nat, wire: nat): Bytes {
    Varint(tag * 8 + wire)
  }

  /** A number as a 64-bit word. */
  function Word64(n: int): nat {
    n % TWO_TO_64
  }

  function ZigZag(n: int): nat {
    if n < 0 then -2 * n - 1 else 2 * n
  }

  function ValueBytes(t: LType, v: Value): Bytes
    requires Typed(t, v)
  {
    match t
    case Bool => Varint(v.n)
    case Int(_) => Varint(Word64(v.n))
    case Uint(_) => Varint(v.n)
    case Zigzag(_) => Varint(ZigZag(v.n))
    case Fixed32 => EncodeFixed32(v.n)
    case Fixed64 => EncodeFixed64(v.n)
    case Submessage(fields) => Prefixed(MessageBytes(fields, v.slots, 0))
    case _ => Prefixed(v.bytes)
  }

  function Prefixed(b: Bytes): Bytes {
    Varint(|b|) + b
  }

  /** The fields from field `i` on. */
  function MessageBytes(fields: seq<Field>, slots: seq<seq<Value>>, i: nat): Bytes
    requires AllTyped(fields, slots) && i <= |fields|
    decreases fields, |fields| - i
  {
    if i == |fields| then [] else FieldBytes(fields[i], slots[i]) + MessageBytes(fields, slots, i + 1)
  }

  function FieldBytes(f: Field, items: seq<Value>): Bytes
    requires SlotTyped(f, items)
    decreases f, 1
  {
    if items == [] || !Written(f, items) then []
    else if Arrayed(f.htype) && Packable(f.ltype) then
      TagBytes(f.tag, STRING_WIRE) + Prefixed(PackedBytes(f, items, 0))
    else UnpackedBytes(f, items, 0)
  }

  predicate Arrayed(h: HType) {
    h.Repeated? || h.FixedCount?
  }

  function PackedBytes(f: Field, items: seq<Value>, k: nat): Bytes
    requires k <= |items| && forall j :: 0 <= j < |items| ==> Typed(f.ltype, items[j])
    decreases f, 0, |items| - k
  {
    if k == |items| then [] else ValueBytes(f.ltype, items[k]) + PackedBytes(f, items, k + 1)
  }

  function UnpackedBytes(f: Field, items: seq<Value>, k: nat): Bytes
    requires k <= |items| && forall j :: 0 <= j < |items| ==> Typed(f.ltype, items[j])
    decreases f, 0, |items| - k
  {
    if k == |items| then []
    else TagBytes(f.tag, WireOf(f.ltype)) + (ValueBytes(f.ltype, items[k]) + UnpackedBytes(f, items, k + 1))
  }
}
