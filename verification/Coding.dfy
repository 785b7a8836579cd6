/** Fixed-width and variable-length integers, and strings that carry their length
    (util/coding.cc). */
module Coding {
  import opened Wrappers
  import opened DbFormat

  const TWO_TO_32: nat := 0x1_0000_0000
  const TWO_TO_64: nat := 0x1_0000_0000_0000_0000

  /** What is left of a size in a 32-bit word. */
  function Low32(v: nat): (w: nat)
    ensures w < TWO_TO_32 && (v < TWO_TO_32 ==> w == v)
  {
    v % TWO_TO_32
  }

  function EncodeFixed32(v: nat): (b: Bytes)
    requires v < TWO_TO_32
    ensures |b| == 4
  {
    [(v % 0x100) as Byte, (v / 0x100 % 0x100) as Byte, (v / 0x1_0000 % 0x100) as Byte, (v / 0x100_0000) as Byte]
  }

  function DecodeFixed32(b: Bytes): (v: nat)
    requires |b| == 4
    ensures v < TWO_TO_32
  {
    b[0] as nat + b[1] as nat * 0x100 + b[2] as nat * 0x1_0000 + b[3] as nat * 0x100_0000
  }

  lemma FixedRoundTrip(v: nat)
    requires v < TWO_TO_32
    ensures DecodeFixed32(EncodeFixed32(v)) == v
  {
    var v1 := v / 0x100;
    var v2 := v1 / 0x100;
    assert v == v % 0x100 + 0x100 * v1 && v1 == v1 % 0x100 + 0x100 * v2 && v2 == v2 % 0x100 + 0x100 * (v2 / 0x100);
    assert v / 0x1_0000 == v2 && v / 0x100_0000 == v2 / 0x100;
  }

  function EncodeFixed64(v: nat): (b: Bytes)
    requires v < TWO_TO_64
    ensures |b| == 8
  {
    EncodeFixed32(v % TWO_TO_32) + EncodeFixed32(v / TWO_TO_32)
  }

  function DecodeFixed64(b: Bytes): (v: nat)
    requires |b| == 8
    ensures v < TWO_TO_64
  {
    DecodeFixed32(b[..4]) + DecodeFixed32(b[4..]) * TWO_TO_32
  }

  lemma Fixed64RoundTrip(v: nat)
    requires v < TWO_TO_64
    ensures DecodeFixed64(EncodeFixed64(v)) == v
  {
    var low, high := EncodeFixed32(v % TWO_TO_32), EncodeFixed32(v / TWO_TO_32);
    FixedRoundTrip(v % TWO_TO_32);
    FixedRoundTrip(v / TWO_TO_32);
    assert (low + high)[..4] == low && (low + high)[4..] == high;
    hide EncodeFixed32, DecodeFixed32;
  }

  /** Seven bits to a byte, low bits first; the top bit says that more bytes follow. */
  function Varint(v: nat): (b: Bytes)
    ensures b != []
    decreases v
  {
    if v < 128 then [v as Byte] else [(v % 128 + 128) as Byte] + Varint(v / 128)
  }

  /** EncodeVarint32: one branch for each length. */
  method EncodeVarint32(v: nat) returns (b: Bytes)
    requires v < TWO_TO_32
    ensures b == Varint(v)
  {
    if v < 0x80 {
      b := [v as Byte];
    } else if v < 0x4000 {
      b := [(v % 128 + 128) as Byte, (v / 0x80) as Byte];
    } else if v < 0x20_0000 {
      b := [(v % 128 + 128) as Byte, (v / 0x80 % 128 + 128) as Byte, (v / 0x4000) as Byte];
    } else if v < 0x1000_0000 {
      b := [(v % 128 + 128) as Byte, (v / 0x80 % 128 + 128) as Byte, (v / 0x4000 % 128 + 128) as Byte,
            (v / 0x20_0000) as Byte];
    } else {
      b := [(v % 128 + 128) as Byte, (v / 0x80 % 128 + 128) as Byte, (v / 0x4000 % 128 + 128) as Byte,
            (v / 0x20_0000 % 128 + 128) as Byte, (v / 0x1000_0000) as Byte];
    }
    VarintUnrolled(v);
  }

  lemma VarintUnrolled(v: nat)
    requires v < TWO_TO_32
    ensures v < 0x80 ==> Varint(v) == [v as Byte]
    ensures 0x80 <= v < 0x4000 ==> Varint(v) == [(v % 128 + 128) as Byte, (v / 0x80) as Byte]
    ensures 0x4000 <= v < 0x20_0000 ==>
      Varint(v) == [(v % 128 + 128) as Byte, (v / 0x80 % 128 + 128) as Byte, (v / 0x4000) as Byte]
    ensures 0x20_0000 <= v < 0x1000_0000 ==>
      Varint(v) == [(v % 128 + 128) as Byte, (v / 0x80 % 128 + 128) as Byte, (v / 0x4000 % 128 + 128) as Byte,
                    (v / 0x20_0000) as Byte]
    ensures 0x1000_0000 <= v ==>
      Varint(v) == [(v % 128 + 128) as Byte, (v / 0x80 % 128 + 128) as Byte, (v / 0x4000 % 128 + 128) as Byte,
                    (v / 0x20_0000 % 128 + 128) as Byte, (v / 0x1000_0000) as Byte]
  {
    var v1 := v / 128;
    var v2 := v1 / 128;
    var v3 := v2 / 128;
    var v4 := v3 / 128;
    assert v1 == v / 0x80 && v2 == v / 0x4000 && v3 == v / 0x20_0000 && v4 == v / 0x1000_0000;
    assert v1 >= 128 ==> Varint(v1) == [(v1 % 128 + 128) as Byte] + Varint(v2);
    assert v2 >= 128 ==> Varint(v2) == [(v2 % 128 + 128) as Byte] + Varint(v3);
    assert v3 >= 128 ==> Varint(v3) == [(v3 % 128 + 128) as Byte] + Varint(v4);
    assert v4 < 128;
  }

  /** EncodeVarint64. */
  method EncodeVarint64(value: nat) returns (b: Bytes)
    requires value < TWO_TO_64
    ensures b == Varint(value)
  {
    b := [];
    var v := value;
    while v >= 128
      invariant b + Varint(v) == Varint(value)
    {
      assert Varint(v) == [(v % 128 + 128) as Byte] + Varint(v / 128);
      b := b + [(v % 128 + 128) as Byte];
      v := v / 128;
    }
    b := b + [v as Byte];
  }

  datatype Parsed = Parsed(value: nat, size: nat)

  /** The number that the bytes spell, if it ends within the last shift that is tried. */
  function ReadVarint(p: Bytes, shift: nat, lastShift: nat): (r: Option<Parsed>)
    ensures r.Some? ==> 0 < r.value.size <= |p|
    decreases |p|
  {
    if shift > lastShift || p == [] then None
    else if p[0] < 128 then Some(Parsed(p[0] as nat, 1))
    else
      match ReadVarint(p[1..], shift + 7, lastShift)
      case None => None
      case Some(r) => Some(Parsed(p[0] as nat - 128 + 128 * r.value, r.size + 1))
  }

  /** The loop of GetVarint32Ptr and of GetVarint64Ptr; the bits of a byte that fall off
      the machine word are lost. */
  method GetVarint(p: Bytes, lastShift: nat, word: nat) returns (r: Option<Parsed>)
    requires word == TWO_TO_32 || word == TWO_TO_64
    ensures var s := ReadVarint(p, 0, lastShift);
      r == if s.None? then None else Some(Parsed(s.value.value % word, s.value.size))
  {
    hide Plus;
    var result: nat, shift: nat, scale: nat, i: nat := 0, 0, 1, 0;
    ghost var spelled: nat := 0;
    assert p[0..] == p;
    PlusUnit(p, lastShift);
    while shift <= lastShift && i < |p|
      invariant i <= |p| && shift == 7 * i
      invariant result == spelled % word
      invariant var s, t := ReadVarint(p, 0, lastShift), ReadVarint(p[i..], shift, lastShift);
        && (s.None? <==> t.None?)
        && (s.Some? ==> s.value == Parsed(Plus(spelled, scale, t.value.value), i + t.value.size))
      decreases |p| - i
    {
      var byte := p[i] as nat;
      assert p[i..][1..] == p[i + 1..];
      if byte >= 128 {
        ghost var t := ReadVarint(p[i + 1..], shift + 7, lastShift);
        if t.Some? {
          Shifted(spelled, scale, byte - 128, t.value.value);
        }
        PlusWraps(spelled, scale, byte - 128, word);
        result := Plus(result, scale, byte - 128) % word;
        spelled := Plus(spelled, scale, byte - 128);
        i, shift, scale := i + 1, shift + 7, scale * 128;
      } else {
        PlusWraps(spelled, scale, byte, word);
        return Some(Parsed(Plus(result, scale, byte) % word, i + 1));
      }
    }
    r := None;
  }

  /** A digit at its place joins the number read so far. */
  function Plus(soFar: nat, scale: nat, digit: nat): nat {
    soFar + scale * digit
  }

  lemma PlusUnit(p: Bytes, lastShift: nat)
    ensures var s := ReadVarint(p, 0, lastShift); s.Some? ==> Plus(0, 1, s.value.value) == s.value.value
  {
  }

  lemma Shifted(soFar: nat, scale: nat, digit: nat, rest: nat)
    ensures Plus(soFar, scale, digit + 128 * rest) == Plus(Plus(soFar, scale, digit), scale * 128, rest)
  {
    assert scale * (digit + 128 * rest) == scale * digit + scale * 128 * rest;
  }

  lemma PlusWraps(a: nat, scale: nat, digit: nat, word: nat)
    requires word == TWO_TO_32 || word == TWO_TO_64
    ensures Plus(a % word, scale, digit) % word == Plus(a, scale, digit) % word
  {
    AddThenWrap(a, scale * digit, word);
  }

  lemma AddThenWrap(a: nat, b: nat, word: nat)
    requires word == TWO_TO_32 || word == TWO_TO_64
    ensures (a % word + b) % word == (a + b) % word
  {
    if word == TWO_TO_32 {
      assert (a % TWO_TO_32 + b) % TWO_TO_32 == (a + b) % TWO_TO_32;
    } else {
      assert (a % TWO_TO_64 + b) % TWO_TO_64 == (a + b) % TWO_TO_64;
    }
  }

  /** What was written reads back, whatever follows it. */
  lemma {:induction false} VarintRoundTrip(v: nat, rest: Bytes, shift: nat, lastShift: nat)
    requires shift + 7 * |Varint(v)| <= lastShift + 7
    ensures ReadVarint(Varint(v) + rest, shift, lastShift) == Some(Parsed(v, |Varint(v)|))
    decreases v
  {
    var p := Varint(v) + rest;
    if v < 128 {
    } else {
      assert p[1..] == Varint(v / 128) + rest;
      VarintRoundTrip(v / 128, rest, shift + 7, lastShift);
    }
  }

  lemma VarintLength32(v: nat)
    requires v < TWO_TO_32
    ensures |Varint(v)| <= 5
  {
    VarintUnrolled(v);
  }

  lemma {:induction false} VarintLength64(v: nat)
    requires v < TWO_TO_64
    ensures |Varint(v)| <= 10
  {
    var v1 := v / 128;
    var v2 := v1 / 128;
    var v3 := v2 / 128;
    var v4 := v3 / 128;
    var v5 := v4 / 128;
    assert v5 == v / 0x8_0000_0000;
    VarintLength32(v5);
    VarintGrows(v4);
    VarintGrows(v3);
    VarintGrows(v2);
    VarintGrows(v1);
    VarintGrows(v);
  }

  lemma VarintGrows(v: nat)
    ensures |Varint(v)| <= 1 + |Varint(v / 128)|
  {
  }

  /** PutLengthPrefixedSlice; the length is cut to 32 bits. */
  function LengthPrefixed(s: Bytes): Bytes {
    Varint(Low32(|s|)) + s
  }

  datatype Sliced = Sliced(slice: Bytes, rest: Bytes)

  /** What GetLengthPrefixedSlice takes off the front of its input. */
  function TakeSlice(input: Bytes): (r: Option<Sliced>)
    ensures r.Some? ==> |r.value.rest| < |input|
  {
    var n := ReadVarint(input, 0, 28);
    if n.None? then None
    else
      var length, rest := n.value.value % TWO_TO_32, input[n.value.size..];
      if |rest| < length then None else Some(Sliced(rest[..length], rest[length..]))
  }

  method GetLengthPrefixedSlice(input: Bytes) returns (r: Option<Sliced>)
    ensures r == TakeSlice(input)
  {
    var n := GetVarint(input, 28, TWO_TO_32);
    if n.None? || |input| - n.value.size < n.value.value {
      return None;
    }
    var rest := input[n.value.size..];
    r := Some(Sliced(rest[..n.value.value], rest[n.value.value..]));
  }

  lemma SliceRoundTrip(s: Bytes, rest: Bytes)
    requires |s| < TWO_TO_32
    ensures TakeSlice(LengthPrefixed(s) + rest) == Some(Sliced(s, rest))
  {
    var n := Varint(|s|);
    VarintLength32(|s|);
    assert LengthPrefixed(s) + rest == n + (s + rest);
    VarintRoundTrip(|s|, s + rest, 0, 28);
    var p := n + (s + rest);
    assert p[|n|..] == s + rest;
    assert (s + rest)[..|s|] == s && (s + rest)[|s|..] == rest;
  }

  datatype Taken = Taken(value: nat, rest: Bytes)

  /** A number and what follows it. */
  function TakeNumber(input: Bytes, lastShift: nat, word: nat): (r: Option<Taken>)
    requires word > 0
    ensures r.Some? ==> |r.value.rest| < |input|
  {
    var n := ReadVarint(input, 0, lastShift);
    if n.None? then None else Some(Taken(n.value.value % word, input[n.value.size..]))
  }

  function Take32(input: Bytes): (r: Option<Taken>)
    ensures r.Some? ==> |r.value.rest| < |input|
  {
    TakeNumber(input, 28, TWO_TO_32)
  }

  function Take64(input: Bytes): (r: Option<Taken>)
    ensures r.Some? ==> |r.value.rest| < |input|
  {
    TakeNumber(input, 63, TWO_TO_64)
  }

  lemma NumberTaken(n: Bytes, v: nat, rest: Bytes, lastShift: nat, word: nat)
    requires v < word && ReadVarint(n + rest, 0, lastShift) == Some(Parsed(v, |n|))
    ensures TakeNumber(n + rest, lastShift, word) == Some(Taken(v, rest))
  {
    hide ReadVarint;
    assert (n + rest)[|n|..] == rest;
    assert v % word == v;
  }

  lemma Take32Back(v: nat, rest: Bytes)
    requires v < TWO_TO_32
    ensures Take32(Varint(v) + rest) == Some(Taken(v, rest))
  {
    VarintLength32(v);
    VarintRoundTrip(v, rest, 0, 28);
    hide Varint, ReadVarint, TakeNumber;
    NumberTaken(Varint(v), v, rest, 28, TWO_TO_32);
  }

  lemma Take64Back(v: nat, rest: Bytes)
    requires v < TWO_TO_64
    ensures Take64(Varint(v) + rest) == Some(Taken(v, rest))
  {
    VarintLength64(v);
    VarintRoundTrip(v, rest, 0, 63);
    hide Varint, ReadVarint, TakeNumber;
    NumberTaken(Varint(v), v, rest, 63, TWO_TO_64);
  }

  /** The number of bytes at the front in which two strings agree. */
  function Common(a: Bytes, b: Bytes): (d: nat)
    ensures d <= |a| && d <= |b| && a[..d] == b[..d]
    ensures d < |a| && d < |b| ==> a[d] != b[d]
    decreases |a|
  {
    if a == [] || b == [] || a[0] != b[0] then 0
    else
      assert a == [a[0]] + a[1..] && b == [b[0]] + b[1..];
      1 + Common(a[1..], b[1..])
  }

  lemma CommonIs(a: Bytes, b: Bytes, d: nat)
    requires d <= |a| && d <= |b| && a[..d] == b[..d] && (d < |a| && d < |b| ==> a[d] != b[d])
    ensures d == Common(a, b)
  {
    var c := Common(a, b);
    if d < c {
      AgreeAt(a, b, c, d);
    } else if c < d {
      AgreeAt(a, b, d, c);
    }
  }

  lemma AgreeAt(a: Bytes, b: Bytes, n: nat, i: nat)
    requires i < n <= |a| && n <= |b| && a[..n] == b[..n]
    ensures a[i] == b[i]
  {
    assert a[i] == a[..n][i] && b[i] == b[..n][i];
  }
}
