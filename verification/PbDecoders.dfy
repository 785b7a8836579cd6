/** The decoder of nanopb (pb_decode.c, pb_common.c): fields in any order, merged into a struct
    of defaults, with a check that all required fields came. */
module PbDecoders {
  import opened Wrappers
  import opened DbFormat
  import opened Coding
  import opened PbMessages

  // ---------- numbers ----------

  /** Weight of the bit at a position of a 32-bit varint. */
  function Scale(bitpos: nat): nat {
    if bitpos == 7 then 0x80 else if bitpos == 14 then 0x4000 else if bitpos == 21 then 0x20_0000 else 0x1000_0000
  }

  /** pb_decode_varint32: more than 32 bits are accepted only as a sign extension. */
  function TakeVarint32(input: Bytes): (r: Option<Taken>)
    ensures r.Some? ==> |r.value.rest| < |input|
  {
    if input == [] then None
    else if input[0] < 128 then Some(Taken(input[0] as nat, input[1..]))
    else More32(input[1..], 7, input[0] as nat - 128)
  }

  function More32(p: Bytes, bitpos: nat, result: nat): (r: Option<Taken>)
    ensures r.Some? ==> |r.value.rest| < |p|
    decreases |p|
  {
    if p == [] || (bitpos >= 32 && BadExtension(p[0], bitpos, result)) then None
    else
      var bits := p[0] as nat % 128;
      var next := if bitpos >= 32 then result else (result + bits * Scale(bitpos)) % TWO_TO_32;
      if p[0] >= 128 then More32(p[1..], bitpos + 7, next)
      else if bitpos == 28 && bits >= 16 then None
      else Some(Taken(next, p[1..]))
  }

  predicate BadExtension(b: Byte, bitpos: nat, result: nat) {
    b % 128 != 0 && (result < 0x8000_0000 || b != if bitpos < 63 then 0xFF else 0x01)
  }

  function Shifted(n: nat, bitpos: nat): nat {
    n * Scale(bitpos)
  }

  lemma LastDigit(w: nat, rest: Bytes, bitpos: nat, result: nat)
    requires w < 128 && bitpos <= 28 && (bitpos == 28 ==> w < 16) && result + Shifted(w, bitpos) < TWO_TO_32
    ensures More32([w as Byte] + rest, bitpos, result) == Some(Taken(result + Shifted(w, bitpos), rest))
  {
    assert ([w as Byte] + rest)[1..] == rest;
  }

  lemma MiddleDigit(low: nat, more: Bytes, bitpos: nat, result: nat)
    requires low < 128 && bitpos <= 28 && result + Shifted(low, bitpos) < TWO_TO_32
    ensures More32([(low + 128) as Byte] + more, bitpos, result) == More32(more, bitpos + 7, result + Shifted(low, bitpos))
  {
    var p := [(low + 128) as Byte] + more;
    assert p[1..] == more && p[0] as nat % 128 == low;
    hide Scale;
    assert bitpos < 32 && (result + low * Scale(bitpos)) % TWO_TO_32 == result + low * Scale(bitpos);
  }

  lemma {:induction false} More32Back(w: nat, rest: Bytes, bitpos: nat, result: nat)
    requires bitpos == 7 || bitpos == 14 || bitpos == 21 || bitpos == 28
    requires result < Scale(bitpos) && result + Shifted(w, bitpos) < TWO_TO_32
    ensures More32(Varint(w) + rest, bitpos, result) == Some(Taken(result + Shifted(w, bitpos), rest))
    decreases w
  {
    if w < 128 {
      LastDigit(w, rest, bitpos, result);
    } else {
      NextDigit(w, bitpos, result);
      More32Back(w / 128, rest, bitpos + 7, result + Shifted(w % 128, bitpos));
      hide Shifted, Scale, More32;
      MiddleDigit(w % 128, Varint(w / 128) + rest, bitpos, result);
      Joined([(w % 128 + 128) as Byte], Varint(w / 128), rest);
    }
  }

  lemma Joined(a: Bytes, b: Bytes, c: Bytes)
    ensures a + b + c == a + (b + c)
  {
  }

  /** A digit at its place; there is no digit after the one at bit 28. */
  lemma NextDigit(w: nat, bitpos: nat, result: nat)
    requires bitpos == 7 || bitpos == 14 || bitpos == 21 || bitpos == 28
    requires result < Scale(bitpos) && result + Shifted(w, bitpos) < TWO_TO_32 && w >= 128
    ensures bitpos < 28 && result + Shifted(w % 128, bitpos) < TWO_TO_32
    ensures var next := result + Shifted(w % 128, bitpos);
      next < Scale(bitpos + 7) && next + Shifted(w / 128, bitpos + 7) == result + Shifted(w, bitpos)
  {
    assert w == w / 128 * 128 + w % 128;
    if bitpos == 7 {
    } else if bitpos == 14 {
    } else if bitpos == 21 {
    }
  }

  lemma Varint32Back(v: nat, rest: Bytes)
    requires v < TWO_TO_32
    ensures TakeVarint32(Varint(v) + rest) == Some(Taken(v, rest))
  {
    var p := Varint(v) + rest;
    if v < 128 {
      assert p[1..] == rest;
    } else {
      assert p[1..] == Varint(v / 128) + rest;
      More32Back(v / 128, rest, 7, v % 128);
    }
  }

  /** More than 32 bits are read if they extend the sign of a 32-bit number ... */
  lemma SignExtended(w: nat, rest: Bytes)
    requires 0x8000_0000 <= w < TWO_TO_32
    ensures TakeVarint32(Varint(TWO_TO_64 - TWO_TO_32 + w) + rest) == Some(Taken(w, rest))
  {
    var v := TWO_TO_64 - TWO_TO_32 + w;
    FirstDigits(v, rest);
    ExtendedDigits(w);
    FifthDigit(v / 0x1000_0000, rest, v % 0x1000_0000);
    Extension(35, w, rest);
    hide Varint, More32, TakeVarint32;
  }

  lemma ExtendedDigits(w: nat)
    requires 0x8000_0000 <= w < TWO_TO_32
    ensures var v := TWO_TO_64 - TWO_TO_32 + w;
      && v / 0x1000_0000 >= 128 && v / 0x1000_0000 / 128 == 0x1FFF_FFFF
      && w == v % 0x1000_0000 + v / 0x1000_0000 % 16 * 0x1000_0000
  {
    var v := TWO_TO_64 - TWO_TO_32 + w;
    var high := 0xF_FFFF_FFF0 + w / 0x1000_0000;
    assert v == high * 0x1000_0000 + w % 0x1000_0000;
    assert high == 0xF_FFFF_FFF * 16 + w / 0x1000_0000;
  }

  /** ... and refused if they are those of a greater one. */
  lemma TooManyBits(v: nat, rest: Bytes)
    requires TWO_TO_32 <= v < 0x8000_0000_0000_0000
    ensures TakeVarint32(Varint(v) + rest) == None
  {
    FirstDigits(v, rest);
    var high := v / 0x1000_0000;
    if high < 128 {
      assert ([high as Byte] + rest)[0] as nat == high;
    } else {
      FifthDigit(high, rest, v % 0x1000_0000);
      NoExtension(high / 128, rest, 35, (v % 0x1000_0000 + high % 16 * 0x1000_0000));
    }
  }

  /** The digits of the lower 28 bits. */
  lemma FirstDigits(v: nat, rest: Bytes)
    requires v >= TWO_TO_32
    ensures TakeVarint32(Varint(v) + rest) == More32(Varint(v / 0x1000_0000) + rest, 28, v % 0x1000_0000)
  {
    var a := v / 128;
    var b := a / 128;
    var c := b / 128;
    LowDigits(v, a, b, c);
    Joined([(v % 128 + 128) as Byte], Varint(a), rest);
    assert ([(v % 128 + 128) as Byte] + (Varint(a) + rest))[1..] == Varint(a) + rest;
    hide More32, Varint;
    DigitRead(a, rest, 7, v % 128);
    DigitRead(b, rest, 14, v % 128 + a % 128 * 0x80);
    DigitRead(c, rest, 21, v % 128 + a % 128 * 0x80 + b % 128 * 0x4000);
  }

  lemma LowDigits(v: nat, a: nat, b: nat, c: nat)
    requires v >= TWO_TO_32 && a == v / 128 && b == a / 128 && c == b / 128
    ensures a >= 128 && b >= 128 && c >= 128 && v / 0x1000_0000 == c / 128
    ensures v % 0x1000_0000 == v % 128 + a % 128 * 0x80 + b % 128 * 0x4000 + c % 128 * 0x20_0000
  {
    assert v == c / 128 * 0x1000_0000 + (v % 128 + a % 128 * 0x80 + b % 128 * 0x4000 + c % 128 * 0x20_0000);
  }

  lemma DigitRead(w: nat, rest: Bytes, bitpos: nat, result: nat)
    requires w >= 128 && (bitpos == 7 || bitpos == 14 || bitpos == 21) && result < Scale(bitpos)
    ensures More32(Varint(w) + rest, bitpos, result) ==
      More32(Varint(w / 128) + rest, bitpos + 7, result + w % 128 * Scale(bitpos))
  {
    Joined([(w % 128 + 128) as Byte], Varint(w / 128), rest);
    MiddleDigit(w % 128, Varint(w / 128) + rest, bitpos, result);
  }

  /** The digit at bit 28: what is above 32 bits goes unseen if more follows. */
  lemma FifthDigit(high: nat, rest: Bytes, result: nat)
    requires high >= 128 && result < 0x1000_0000
    ensures More32(Varint(high) + rest, 28, result) ==
      More32(Varint(high / 128) + rest, 35, result + high % 16 * 0x1000_0000)
  {
    var low := high % 128;
    Joined([(low + 128) as Byte], Varint(high / 128), rest);
    hide More32;
    OneMore(low, Varint(high / 128) + rest, 28, result);
    Truncated(low, result);
    LowSixteen(high);
  }

  lemma LowSixteen(high: nat)
    ensures high % 128 % 16 == high % 16
  {
    var low := high % 128;
    RemainderIs(high, 8 * (high / 128) + low / 16, low % 16);
  }

  lemma RemainderIs(n: nat, k: nat, r: nat)
    requires r < 16 && n == 16 * k + r
    ensures n % 16 == r
  {
  }

  lemma OneMore(low: nat, more: Bytes, bitpos: nat, result: nat)
    requires low < 128 && bitpos < 32
    ensures More32([(low + 128) as Byte] + more, bitpos, result) ==
      More32(more, bitpos + 7, (result + low * Scale(bitpos)) % TWO_TO_32)
  {
    assert ([(low + 128) as Byte] + more)[1..] == more;
    hide Scale;
  }

  lemma Truncated(low: nat, result: nat)
    requires low < 128 && result < 0x1000_0000
    ensures (result + low * 0x1000_0000) % TWO_TO_32 == result + low % 16 * 0x1000_0000 < TWO_TO_32
  {
    assert result + low * 0x1000_0000 == low / 16 * TWO_TO_32 + (result + low % 16 * 0x1000_0000);
  }

  /** Bits from a position on, all set. */
  function AllSet(bitpos: nat): nat
    requires bitpos == 35 || bitpos == 42 || bitpos == 49 || bitpos == 56 || bitpos == 63
  {
    if bitpos == 35 then 0x1FFF_FFFF else if bitpos == 42 then 0x3F_FFFF else if bitpos == 49 then 0x7FFF
    else if bitpos == 56 then 0xFF else 1
  }

  lemma {:induction false} Extension(bitpos: nat, w: nat, rest: Bytes)
    requires bitpos == 35 || bitpos == 42 || bitpos == 49 || bitpos == 56 || bitpos == 63
    requires 0x8000_0000 <= w < TWO_TO_32
    ensures More32(Varint(AllSet(bitpos)) + rest, bitpos, w) == Some(Taken(w, rest))
    decreases 63 - bitpos
  {
    if bitpos == 63 {
      assert ([1 as Byte] + rest)[1..] == rest;
    } else {
      var more := Varint(AllSet(bitpos + 7)) + rest;
      Extension(bitpos + 7, w, rest);
      assert AllSet(bitpos) / 128 == AllSet(bitpos + 7) && AllSet(bitpos) % 128 + 128 == 0xFF;
      Joined([0xFF], Varint(AllSet(bitpos + 7)), rest);
      assert ([0xFF as Byte] + more)[1..] == more;
    }
  }

  /** The highest digit cannot be an extension, unless it is at bit 63. */
  lemma {:induction false} NoExtension(u: nat, rest: Bytes, bitpos: nat, result: nat)
    requires u > 0 && bitpos >= 35 && result < TWO_TO_32
    requires u < 0x80 * 0x80 * 0x80 * 0x80 && (bitpos > 35 ==> u < 0x80 * 0x80 * 0x80)
    requires (bitpos > 42 ==> u < 0x80 * 0x80) && (bitpos > 49 ==> u < 0x80) && bitpos <= 56
    ensures More32(Varint(u) + rest, bitpos, result) == None
    decreases u
  {
    if u < 128 {
      assert ([u as Byte] + rest)[0] as nat == u;
    } else {
      NoExtension(u / 128, rest, bitpos + 7, result);
      Joined([(u % 128 + 128) as Byte], Varint(u / 128), rest);
      var more := Varint(u / 128) + rest;
      assert ([(u % 128 + 128) as Byte] + more)[1..] == more;
    }
  }

  /** A 64-bit word as a signed number of a size. */
  function Signed(n: int, size: nat): int {
    var low := n % Bits(size);
    if 2 * low >= Bits(size) then low - Bits(size) else low
  }

  function UnZigZag(v: nat): int {
    if v % 2 == 1 then -(v / 2) - 1 else v / 2
  }

  function Zeros(n: nat): (z: Bytes)
    ensures |z| == n && forall i :: 0 <= i < n ==> z[i] == 0
  {
    if n == 0 then [] else [0] + Zeros(n - 1)
  }

  /** Number decoders: what does not fit the storage is refused. */
  function TakeSized(t: LType, v: nat): Option<Value>
    requires t.Int? || t.Uint? || t.Zigzag?
  {
    if !ValidSize(t.size) then None
    else
      var n := match t
        case Int(size) => if size == 8 then Signed(v, 8) else Signed(v, 4)
        case Uint(_) => v
        case Zigzag(_) => UnZigZag(v);
      var clamped := if t.Uint? then n % Bits(t.size) else Signed(n, t.size);
      if clamped == n then Some(Num(n)) else None
  }

  // ---------- values without fields ----------

  datatype Got = Got(value: Value, rest: Bytes)

  /** pb_make_string_substream: a length, and that many bytes. */
  function TakeString(input: Bytes): (r: Option<Sliced>)
    ensures r.Some? ==> |r.value.rest| < |input| && |r.value.slice| < |input|
  {
    var n := TakeVarint32(input);
    if n.None? || |n.value.rest| < n.value.value then None
    else Some(Sliced(n.value.rest[..n.value.value], n.value.rest[n.value.value..]))
  }

  function UpToZero(b: Bytes): (r: Bytes)
    ensures 0 !in b ==> r == b
  {
    if b == [] || b[0] == 0 then [] else [b[0]] + UpToZero(b[1..])
  }

  function TakePlain(t: LType, input: Bytes): (r: Option<Got>)
    ensures r.Some? ==> |r.value.rest| <= |input|
    ensures r.Some? && Packable(t) ==> |r.value.rest| < |input|
  {
    match t
    case Bool =>
      var n := TakeVarint32(input);
      if n.None? then None else Some(Got(Num(if n.value.value != 0 then 1 else 0), n.value.rest))
    case Fixed32 => if |input| < 4 then None else Some(Got(Num(DecodeFixed32(input[..4])), input[4..]))
    case Fixed64 => if |input| < 8 then None else Some(Got(Num(DecodeFixed64(input[..8])), input[8..]))
    case BytesOf(max) =>
      var s := TakeString(input);
      if s.None? || |s.value.slice| > max then None else Some(Got(Raw(s.value.slice), s.value.rest))
    case StringOf(storage) =>
      var s := TakeString(input);
      if s.None? || |s.value.slice| + 1 > storage then None else Some(Got(Raw(UpToZero(s.value.slice)), s.value.rest))
    case FixedBytes(length) =>
      var s := TakeString(input);
      if s.None? then None
      else if s.value.slice == [] then Some(Got(Raw(Zeros(length)), s.value.rest))
      else if |s.value.slice| != length then None
      else Some(Got(Raw(s.value.slice), s.value.rest))
    case Submessage(_) => None
    case _ =>
      var n := Take64(input);
      if n.None? then None
      else
        var v := TakeSized(t, n.value.value);
        if v.None? then None else Some(Got(v.value, n.value.rest))
  }

  // ---------- a plain value reads back ----------

  /** What the decoder can take back: a string that is closed by a zero byte within its
      storage, and lengths of at most 32 bits. */
  predicate PlainDecodable(t: LType, v: Value)
    requires Typed(t, v)
  {
    match t
    case BytesOf(max) => |v.bytes| <= max && |v.bytes| < TWO_TO_32
    case StringOf(storage) => |v.bytes| < storage && |v.bytes| < TWO_TO_32
    case FixedBytes(length) => length < TWO_TO_32
    case _ => true
  }

  lemma StringBack(b: Bytes, rest: Bytes)
    requires |b| < TWO_TO_32
    ensures TakeString(Prefixed(b) + rest) == Some(Sliced(b, rest))
  {
    Varint32Back(|b|, b + rest);
    Joined(Varint(|b|), b, rest);
    hide Varint, TakeVarint32;
    assert (b + rest)[..|b|] == b && (b + rest)[|b|..] == rest;
  }

  lemma SignedIsItself(n: int, size: nat)
    requires ValidSize(size) && IsSigned(n, size)
    ensures Signed(n, size) == n
    ensures size < 8 ==> IsSigned(n, 4)
    ensures IsSigned(n, 8)
  {
    if size == 1 {
    } else if size == 2 {
    } else if size == 4 {
    }
  }

  lemma WordIsSigned(n: int)
    ensures IsSigned(n, 8) ==> Signed(Word64(n), 8) == n
    ensures IsSigned(n, 4) ==> Signed(Word64(n), 4) == n
  {
  }

  lemma ZigZagBack(n: int)
    requires IsSigned(n, 8)
    ensures 0 <= ZigZag(n) < TWO_TO_64 && UnZigZag(ZigZag(n)) == n
  {
  }

  lemma UnsignedIsItself(n: int, size: nat)
    requires ValidSize(size) && IsUnsigned(n, size)
    ensures n % Bits(size) == n && n < TWO_TO_64
  {
  }

  lemma SizedBack(t: LType, v: Value)
    requires Typed(t, v) && (t.Int? || t.Uint? || t.Zigzag?)
    ensures var w := if t.Int? then Word64(v.n) else if t.Uint? then v.n else ZigZag(v.n);
      0 <= w < TWO_TO_64 && TakeSized(t, w) == Some(v)
  {
    if t.Uint? {
      UnsignedIsItself(v.n, t.size);
    } else {
      SignedIsItself(v.n, t.size);
      WordIsSigned(v.n);
      ZigZagBack(v.n);
    }
    hide Signed, IsSigned, Bits, ZigZag, UnZigZag;
  }

  lemma NumberBack(t: LType, v: Value, rest: Bytes)
    requires Typed(t, v) && Packable(t)
    ensures TakePlain(t, ValueBytes(t, v) + rest) == Some(Got(v, rest))
  {
    match t
    case Bool =>
      Varint32Back(v.n, rest);
    case Fixed32 =>
      FixedRoundTrip(v.n);
      Front(EncodeFixed32(v.n), rest);
    case Fixed64 =>
      Fixed64RoundTrip(v.n);
      Front(EncodeFixed64(v.n), rest);
    case Int(_) =>
      SizedBack(t, v);
      Take64Back(Word64(v.n), rest);
    case Uint(_) =>
      SizedBack(t, v);
      Take64Back(v.n, rest);
    case Zigzag(_) =>
      SizedBack(t, v);
      Take64Back(ZigZag(v.n), rest);
    case _ =>
  }

  lemma Front(a: Bytes, rest: Bytes)
    ensures (a + rest)[..|a|] == a && (a + rest)[|a|..] == rest
  {
  }

  lemma PlainBack(t: LType, v: Value, rest: Bytes)
    requires Typed(t, v) && !t.Submessage? && PlainDecodable(t, v)
    ensures TakePlain(t, ValueBytes(t, v) + rest) == Some(Got(v, rest))
  {
    if Packable(t) {
      NumberBack(t, v, rest);
    } else {
      StringBack(v.bytes, rest);
      hide Prefixed, TakeString;
    }
  }

  // ---------- defaults ----------

  /** pb_field_set_to_default, for fields without a default of their own. */
  function DefaultValue(t: LType): Value {
    match t
    case Submessage(fields) => Msg(Defaults(fields))
    case FixedBytes(length) => Raw(Zeros(length))
    case BytesOf(_) => Raw([])
    case StringOf(_) => Raw([])
    case _ => Num(0)
  }

  function Defaults(fields: seq<Field>): (slots: seq<seq<Value>>)
    ensures |slots| == |fields|
  {
    seq(|fields|, i requires 0 <= i < |fields| => DefaultSlot(fields[i]))
  }

  function DefaultSlot(f: Field): seq<Value> {
    match f.htype
    case Required => [DefaultValue(f.ltype)]
    case Singular => [DefaultValue(f.ltype)]
    case FixedCount(count) => Copies(count, DefaultValue(f.ltype))
    case _ => []
  }

  function Copies(n: nat, v: Value): (r: seq<Value>)
    ensures |r| == n
  {
    if n == 0 then [] else [v] + Copies(n - 1, v)
  }

  // ---------- fields ----------

  /** Field numbers that a 32-bit tag can carry, each used once. */
  predicate WellFormed(fields: seq<Field>) {
    && (forall i :: 0 <= i < |fields| ==> 0 < fields[i].tag < 0x2000_0000)
    && (forall i, j :: 0 <= i < j < |fields| ==> fields[i].tag != fields[j].tag)
  }

  /** pb_field_iter_find: the field with the tag. */
  function Find(fields: seq<Field>, tag: nat): (r: Option<nat>)
    ensures r.Some? ==> r.value < |fields| && fields[r.value].tag == tag
    ensures r.None? ==> forall i :: 0 <= i < |fields| ==> fields[i].tag != tag
  {
    if fields == [] then None
    else if fields[|fields| - 1].tag == tag then Some(|fields| - 1)
    else Find(fields[..|fields| - 1], tag)
  }

  lemma {:induction false} FindIs(fields: seq<Field>, i: nat)
    requires WellFormed(fields) && i < |fields|
    ensures Find(fields, fields[i].tag) == Some(i)
  {
  }

  /** Slots so far, required fields seen, and the array of fixed length that is being filled. */
  datatype State = State(slots: seq<seq<Value>>, seen: set<nat>, fixed: Option<nat>)

  datatype Advanced = Advanced(state: State, rest: Bytes)

  /** pb_decode_tag. */
  datatype TagRead = Tag(number: nat, wire: nat, rest: Bytes) | Ends | Broken

  function TakeTag(input: Bytes): (r: TagRead)
    ensures r.Tag? ==> |r.rest| < |input|
  {
    var n := TakeVarint32(input);
    if n.None? then Broken
    else if n.value.value == 0 then Ends
    else Tag(n.value.value / 8, n.value.value % 8, n.value.rest)
  }

  /** pb_skip_field. */
  function Skip(wire: nat, input: Bytes): (r: Option<Bytes>)
    ensures r.Some? ==> |r.value| <= |input|
  {
    if wire == 0 then SkipVarint(input)
    else if wire == 1 then if |input| < 8 then None else Some(input[8..])
    else if wire == 2 then
      var s := TakeString(input);
      if s.None? then None else Some(s.value.rest)
    else if wire == 5 then if |input| < 4 then None else Some(input[4..])
    else None
  }

  function SkipVarint(input: Bytes): (r: Option<Bytes>)
    ensures r.Some? ==> |r.value| <= |input|
  {
    if input == [] then None else if input[0] < 128 then Some(input[1..]) else SkipVarint(input[1..])
  }

  /** The members of one union share storage: setting one of them drops the others. */
  function Exclusive(fields: seq<Field>, slots: seq<seq<Value>>, i: nat): (r: seq<seq<Value>>)
    requires |slots| == |fields| && i < |fields|
    ensures |r| == |slots|
  {
    seq(|slots|, k requires 0 <= k < |slots| =>
      if k != i && fields[i].htype.Oneof? && fields[k].htype == fields[i].htype then [] else slots[k])
  }

  /** The item that a value is decoded into. */
  function Base(t: LType, items: seq<Value>): Value {
    if items == [] then DefaultValue(t) else items[0]
  }

  /** The numbers of a packed array, as many as there is room for. */
  function TakePacked(t: LType, input: Bytes, items: seq<Value>, room: nat): (r: Option<seq<Value>>)
    requires Packable(t)
    decreases |input|
  {
    if input == [] then Some(items)
    else if |items| >= room then None
    else
      var v := TakePlain(t, input);
      if v.None? then None else TakePacked(t, v.value.rest, items + [v.value.value], room)
  }

  function TakeValue(t: LType, input: Bytes, base: Value): (r: Option<Got>)
    ensures r.Some? ==> |r.value.rest| <= |input|
    decreases |input|, 0
  {
    match t
    case Submessage(fields) =>
      var s := TakeString(input);
      if s.None? then None
      else
        var slots := if base.Msg? && |base.slots| == |fields| then base.slots else Defaults(fields);
        var m := DecodeMessage(fields, s.value.slice, slots);
        if m.None? then None else Some(Got(Msg(m.value), s.value.rest))
    case _ => TakePlain(t, input)
  }

  /** One more occurrence of an array, into `items`. */
  function TakeItems(t: LType, wire: nat, input: Bytes, items: seq<Value>, room: nat): (r: Option<(seq<Value>, Bytes)>)
    ensures r.Some? ==> |r.value.1| <= |input|
    decreases |input|, 1
  {
    if wire == STRING_WIRE && Packable(t) then
      var s := TakeString(input);
      if s.None? then None
      else
        var p := TakePacked(t, s.value.slice, items, room);
        if p.None? then None else Some((p.value, s.value.rest))
    else if |items| >= room then None
    else
      var v := TakeValue(t, input, DefaultValue(t));
      if v.None? then None else Some((items + [v.value.value], v.value.rest))
  }

  /** decode_static_field, with the bookkeeping that pb_decode_noinit does before it. */
  function DecodeField(fields: seq<Field>, i: nat, wire: nat, input: Bytes, st: State): (r: Option<Advanced>)
    requires |st.slots| == |fields| && i < |fields|
    ensures r.Some? ==> |r.value.state.slots| == |fields| && |r.value.rest| <= |input|
    decreases |input|, 2
  {
    var f := fields[i];
    match f.htype
    case Repeated(arraySize) =>
      var r := TakeItems(f.ltype, wire, input, st.slots[i], arraySize);
      if r.None? then None else Some(Advanced(st.(slots := st.slots[i := r.value.0]), r.value.1))
    case FixedCount(count) =>
      if st.fixed != Some(i) && !FixedComplete(fields, st) then None
      else
        var items := if st.fixed == Some(i) then st.slots[i] else [];
        var r := TakeItems(f.ltype, wire, input, items, count);
        if r.None? then None
        else Some(Advanced(st.(slots := st.slots[i := r.value.0], fixed := Some(i)), r.value.1))
    case _ =>
      var slots := Exclusive(fields, st.slots, i);
      var v := TakeValue(f.ltype, input, Base(f.ltype, slots[i]));
      if v.None? then None
      else
        var seen := if f.htype.Required? then st.seen + {i} else st.seen;
        Some(Advanced(State(slots[i := [v.value.value]], seen, st.fixed), v.value.rest))
  }

  predicate FixedComplete(fields: seq<Field>, st: State)
    requires |st.slots| == |fields|
  {
    st.fixed.Some? && st.fixed.value < |fields| && fields[st.fixed.value].htype.FixedCount? ==>
      |st.slots[st.fixed.value]| == fields[st.fixed.value].htype.count
  }

  function Loop(fields: seq<Field>, input: Bytes, st: State): (r: Option<State>)
    requires |st.slots| == |fields|
    ensures r.Some? ==> |r.value.slots| == |fields|
    decreases |input|, 3
  {
    if input == [] then Some(st)
    else
      match TakeTag(input)
      case Broken => None
      case Ends => Some(st)
      case Tag(number, wire, rest) =>
        var i := Find(fields, number);
        if i.None? then
          var s := Skip(wire, rest);
          if s.None? then None else Loop(fields, s.value, st)
        else
          var a := DecodeField(fields, i.value, wire, rest, st);
          if a.None? then None else Loop(fields, a.value.rest, a.value.state)
  }

  const MAX_REQUIRED: nat := 64

  /** Number of required fields before field `i`. */
  function RequiredBefore(fields: seq<Field>, i: nat): nat
    requires i <= |fields|
  {
    if i == 0 then 0 else RequiredBefore(fields, i - 1) + if fields[i - 1].htype.Required? then 1 else 0
  }

  predicate MustCome(fields: seq<Field>, i: nat) {
    i < |fields| && fields[i].htype.Required? && RequiredBefore(fields, i) < MAX_REQUIRED
  }

  predicate AllCame(fields: seq<Field>, seen: set<nat>) {
    forall i :: 0 <= i < |fields| && MustCome(fields, i) ==> i in seen
  }

  /** pb_decode_noinit: into a struct that holds defaults, or what came before. */
  function DecodeMessage(fields: seq<Field>, input: Bytes, slots: seq<seq<Value>>): (r: Option<seq<seq<Value>>>)
    requires |slots| == |fields|
    ensures r.Some? ==> |r.value| == |fields|
    decreases |input|, 4
  {
    var st := Loop(fields, input, State(slots, {}, None));
    if st.Some? && FixedComplete(fields, st.value) && AllCame(fields, st.value.seen) then Some(st.value.slots) else None
  }
}
