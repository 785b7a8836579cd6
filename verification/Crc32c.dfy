/** CRC-32C, section 12.1 of RFC 3720, and the masking of stored checksums
    (util/crc32c.cc, util/crc32c.h). */
module Crc32c {
  import opened DbFormat
  import opened Coding

  /** The polynomial with its bits reversed. */
  const POLYNOMIAL: bv32 := 0x82F6_3B78

  function Bit(crc: bv32): bv32 {
    if crc & 1 == 1 then (crc >> 1) ^ POLYNOMIAL else crc >> 1
  }

  function Bit2(x: bv32): bv32 { Bit(Bit(x)) }

  function Bit4(x: bv32): bv32 { Bit2(Bit2(x)) }

  /** Eight steps of the shift register: one entry of the byte table. */
  function Table(b: bv32): bv32 { Bit4(Bit4(b)) }

  function Low(x: bv32): bv32 { x & 0xFF }

  function High(x: bv32): bv32 { x >> 8 }

  /** Shift one zero byte through the register. */
  function Zero1(x: bv32): bv32 {
    Xor(Table(Low(x)), High(x))
  }

  function Zero2(x: bv32): bv32 { Zero1(Zero1(x)) }

  function Zero4(x: bv32): bv32 { Zero2(Zero2(x)) }

  function Zero8(x: bv32): bv32 { Zero4(Zero4(x)) }

  function Zero16(x: bv32): bv32 { Zero8(Zero8(x)) }

  /** STEP1: table look-up at the low byte of the register, mixed with the next byte. */
  function StepByte(crc: bv32, b: bv8): bv32 {
    Xor(Table(Xor(Low(crc), b as bv32)), High(crc))
  }

  /** The register after some bytes, one at a time. */
  function Fold(crc: bv32, data: seq<bv8>): bv32
    decreases |data|
  {
    if data == [] then crc else StepByte(Fold(crc, data[..|data| - 1]), data[|data| - 1])
  }

  /** Conditioning before and after: exclusive or with all ones. */
  function Invert(x: bv32): bv32 { x ^ 0xFFFF_FFFF }

  /** The checksum of a string that ends in `data`, from that of what precedes it. */
  function Extend(crc: bv32, data: seq<bv8>): bv32 {
    Invert(Fold(Invert(crc), data))
  }

  function Bits(data: Bytes): (r: seq<bv8>)
    ensures |r| == |data|
  {
    seq(|data|, i requires 0 <= i < |data| => data[i] as bv8)
  }

  function Value(data: Bytes): bv32 {
    Extend(0, Bits(data))
  }

  // ---------- linearity ----------

  /** Exclusive or by name, so that proofs can treat it as an operation with laws. */
  function Xor(x: bv32, y: bv32): bv32 { x ^ y }

  lemma XorLaws(a: bv32, b: bv32, c: bv32, d: bv32)
    ensures Xor(Xor(a, b), Xor(c, d)) == Xor(Xor(a, c), Xor(b, d))
    ensures Xor(a, Xor(b, c)) == Xor(Xor(a, b), c) && Xor(a, b) == Xor(b, a)
    ensures Xor(0, a) == a && Xor(a, 0) == a
  {
  }

  lemma Rearrange(a: bv32, b: bv32, k: bv32)
    ensures (a ^ k) ^ (b ^ k) == a ^ b && (a ^ k) ^ b == (a ^ b) ^ k && a ^ (b ^ k) == (a ^ b) ^ k
  {
  }

  lemma LowBits(x: bv32, y: bv32)
    ensures (x ^ y) >> 1 == (x >> 1) ^ (y >> 1)
    ensures (x ^ y) & 1 == 1 <==> ((x & 1 == 1) != (y & 1 == 1))
  {
  }

  lemma BitOfXor(x: bv32, y: bv32)
    ensures Bit(x ^ y) == Bit(x) ^ Bit(y)
  {
    LowBits(x, y);
    Rearrange(x >> 1, y >> 1, POLYNOMIAL);
  }

  lemma BitLinear(x: bv32, y: bv32)
    ensures Bit(Xor(x, y)) == Xor(Bit(x), Bit(y))
  {
    hide Bit;
    BitOfXor(x, y);
  }

  lemma Bit2Linear(x: bv32, y: bv32)
    ensures Bit2(Xor(x, y)) == Xor(Bit2(x), Bit2(y))
  {
    hide Bit, Xor;
    BitLinear(x, y);
    BitLinear(Bit(x), Bit(y));
  }

  lemma Bit4Linear(x: bv32, y: bv32)
    ensures Bit4(Xor(x, y)) == Xor(Bit4(x), Bit4(y))
  {
    hide Bit2, Xor;
    Bit2Linear(x, y);
    Bit2Linear(Bit2(x), Bit2(y));
  }

  lemma TableLinear(x: bv32, y: bv32)
    ensures Table(Xor(x, y)) == Xor(Table(x), Table(y))
  {
    hide Bit4, Xor;
    Bit4Linear(x, y);
    Bit4Linear(Bit4(x), Bit4(y));
  }

  lemma BytesOfXor(x: bv32, y: bv32)
    ensures Low(Xor(x, y)) == Xor(Low(x), Low(y)) && High(Xor(x, y)) == Xor(High(x), High(y))
  {
  }

  lemma Zero1Linear(x: bv32, y: bv32)
    ensures Zero1(Xor(x, y)) == Xor(Zero1(x), Zero1(y))
  {
    hide Table, Xor, Low, High;
    BytesOfXor(x, y);
    TableLinear(Low(x), Low(y));
    XorLaws(Table(Low(x)), Table(Low(y)), High(x), High(y));
  }

  lemma Zero2Linear(x: bv32, y: bv32)
    ensures Zero2(Xor(x, y)) == Xor(Zero2(x), Zero2(y))
  {
    hide Zero1, Xor;
    Zero1Linear(x, y);
    Zero1Linear(Zero1(x), Zero1(y));
  }

  lemma Zero4Linear(x: bv32, y: bv32)
    ensures Zero4(Xor(x, y)) == Xor(Zero4(x), Zero4(y))
  {
    hide Zero2, Xor;
    Zero2Linear(x, y);
    Zero2Linear(Zero2(x), Zero2(y));
  }

  lemma Zero8Linear(x: bv32, y: bv32)
    ensures Zero8(Xor(x, y)) == Xor(Zero8(x), Zero8(y))
  {
    hide Zero4, Xor;
    Zero4Linear(x, y);
    Zero4Linear(Zero4(x), Zero4(y));
  }

  lemma Zero16Linear(x: bv32, y: bv32)
    ensures Zero16(Xor(x, y)) == Xor(Zero16(x), Zero16(y))
  {
    hide Zero8, Xor;
    Zero8Linear(x, y);
    Zero8Linear(Zero8(x), Zero8(y));
  }

  // ---------- four bytes at a time ----------

  lemma ByteBits(crc: bv32, b: bv8)
    ensures Low(Xor(crc, b as bv32)) == Xor(Low(crc), b as bv32) && High(Xor(crc, b as bv32)) == High(crc)
  {
  }

  /** A byte that enters the register is a byte of the register. */
  lemma StepIsZero(crc: bv32, b: bv8)
    ensures StepByte(crc, b) == Zero1(Xor(crc, b as bv32))
  {
    hide Table, Xor, Low, High;
    ByteBits(crc, b);
  }

  lemma HighBits(b: bv32)
    requires b <= 0xFF_FFFF
    ensures Low(b << 8) == 0 && High(b << 8) == b
  {
  }

  lemma TableAtZero()
    ensures Table(0) == 0
  {
    assert Bit(0) == 0;
    hide Bit;
  }

  /** One byte up, by name. */
  function Up8(x: bv32): bv32 { x << 8 }

  predicate ThreeBytes(x: bv32) { x <= 0xFF_FFFF }

  /** A byte higher up reaches the low end unchanged. */
  lemma ShiftedByte(b: bv32)
    requires ThreeBytes(b)
    ensures Zero1(Up8(b)) == b
  {
    hide Table, Xor, Low, High;
    HighBits(b);
    TableAtZero();
    XorLaws(b, 0, 0, 0);
  }

  /** ReadUint32LE. */
  function Word(a: bv8, b: bv8, c: bv8, d: bv8): bv32 {
    (a as bv32) | ((b as bv32) << 8) | ((c as bv32) << 16) | ((d as bv32) << 24)
  }

  function Upper3(b: bv8, c: bv8, d: bv8): bv32 {
    (b as bv32) | ((c as bv32) << 8) | ((d as bv32) << 16)
  }

  function Upper2(c: bv8, d: bv8): bv32 {
    (c as bv32) | ((d as bv32) << 8)
  }

  lemma WordShifts(a: bv8, b: bv8, c: bv8, d: bv8)
    ensures Word(a, b, c, d) == Xor(a as bv32, Upper3(b, c, d) << 8) && Upper3(b, c, d) <= 0xFF_FFFF
    ensures Upper3(b, c, d) == Xor(b as bv32, Upper2(c, d) << 8) && Upper2(c, d) <= 0xFF_FFFF
    ensures Upper2(c, d) == Xor(c as bv32, (d as bv32) << 8) && d as bv32 <= 0xFF_FFFF
  {
  }

  /** The word, byte by byte from the top. */
  lemma WordNested(a: bv8, b: bv8, c: bv8, d: bv8)
    ensures Word(a, b, c, d) == Xor(a as bv32, Up8(Upper3(b, c, d))) && ThreeBytes(Upper3(b, c, d))
    ensures Upper3(b, c, d) == Xor(b as bv32, Up8(Upper2(c, d))) && ThreeBytes(Upper2(c, d))
    ensures Upper2(c, d) == Xor(c as bv32, Up8(d as bv32)) && ThreeBytes(d as bv32)
  {
    hide Word, Upper3, Upper2, Xor;
    WordShifts(a, b, c, d);
  }

  /** One byte out of a register that also holds later bytes. */
  lemma StepOut(l: bv32, a: bv8, rest: bv32)
    requires ThreeBytes(rest)
    ensures Zero1(Xor(l, Xor(a as bv32, Up8(rest)))) == Xor(StepByte(l, a), rest)
  {
    hide Zero1, StepByte, Xor, Up8, ThreeBytes;
    StepIsZero(l, a);
    XorLaws(l, a as bv32, Up8(rest), 0);
    Zero1Linear(Xor(l, a as bv32), Up8(rest));
    ShiftedByte(rest);
  }

  function Step4(l: bv32, a: bv8, b: bv8, c: bv8, d: bv8): bv32 {
    StepByte(StepByte(StepByte(StepByte(l, a), b), c), d)
  }

  /** Four bytes loaded as a word enter the register at once. */
  lemma WordEnters(l: bv32, a: bv8, b: bv8, c: bv8, d: bv8)
    ensures Step4(l, a, b, c, d) == Zero4(Xor(l, Word(a, b, c, d)))
  {
    hide Zero1, StepByte, Word, Upper3, Upper2, Xor, Up8, ThreeBytes;
    WordNested(a, b, c, d);
    StepOut(l, a, Upper3(b, c, d));
    var l1 := StepByte(l, a);
    StepOut(l1, b, Upper2(c, d));
    var l2 := StepByte(l1, b);
    StepOut(l2, c, d as bv32);
    StepIsZero(StepByte(l2, c), d);
  }

  // ---------- stripes ----------

  /** The register that four partial results stand for. */
  function Combine(c0: bv32, c1: bv32, c2: bv32, c3: bv32): bv32 {
    Zero4(Xor(Zero4(Xor(Zero4(Xor(Zero4(c0), c1)), c2)), c3))
  }

  function Zero12(x: bv32): bv32 { Zero4(Zero8(x)) }

  /** The same, spread out. */
  lemma CombineSpread(c0: bv32, c1: bv32, c2: bv32, c3: bv32)
    ensures Combine(c0, c1, c2, c3) == Xor(Xor(Xor(Zero16(c0), Zero12(c1)), Zero8(c2)), Zero4(c3))
  {
    hide Zero4, Xor;
    var s0 := Zero4(c0);
    Zero4Linear(s0, c1);
    var s1 := Xor(Zero4(s0), Zero4(c1));
    Zero4Linear(s1, c2);
    Zero4Linear(Zero4(s0), Zero4(c1));
    var s2 := Xor(Xor(Zero4(Zero4(s0)), Zero4(Zero4(c1))), Zero4(c2));
    Zero4Linear(s2, c3);
    Zero4Linear(Xor(Zero4(Zero4(s0)), Zero4(Zero4(c1))), Zero4(c2));
    Zero4Linear(Zero4(Zero4(s0)), Zero4(Zero4(c1)));
  }

  /** STEP4 on the first stripe, and rotation: the word after the stripes enters. */
  lemma StripeStep(c0: bv32, c1: bv32, c2: bv32, c3: bv32, w: bv32)
    ensures Combine(c1, c2, c3, Xor(w, Zero16(c0))) == Zero4(Xor(Combine(c0, c1, c2, c3), w))
  {
    CombineSpread(c0, c1, c2, c3);
    CombineSpread(c1, c2, c3, Xor(w, Zero16(c0)));
    hide Zero4, Combine, Xor;
    var a, b, c, d := Zero16(c0), Zero12(c1), Zero8(c2), Zero4(c3);
    Zero4Linear(w, a);
    Zero4Linear(Xor(Xor(Xor(a, b), c), d), w);
    Zero4Linear(Xor(Xor(a, b), c), d);
    Zero4Linear(Xor(a, b), c);
    Zero4Linear(a, b);
    SameSum(Zero4(a), Zero4(b), Zero4(c), Zero4(d), Zero4(w));
  }

  lemma SameSum(a: bv32, b: bv32, c: bv32, d: bv32, w: bv32)
    ensures Xor(Xor(Xor(b, c), d), Xor(w, a)) == Xor(Xor(Xor(Xor(a, b), c), d), w)
  {
    hide Xor;
    XorLaws(a, b, c, d);
    XorLaws(a, Xor(b, c), d, w);
    var s := Xor(Xor(b, c), d);
    XorLaws(a, s, w, 0);
    XorLaws(s, a, w, 0);
    XorLaws(w, a, 0, 0);
  }

  /** STEP16 is four such steps: every stripe takes one word, and the order is restored. */
  lemma SwathStep(c0: bv32, c1: bv32, c2: bv32, c3: bv32, w0: bv32, w1: bv32, w2: bv32, w3: bv32)
    ensures Combine(Xor(w0, Zero16(c0)), Xor(w1, Zero16(c1)), Xor(w2, Zero16(c2)), Xor(w3, Zero16(c3)))
      == Zero4(Xor(Zero4(Xor(Zero4(Xor(Zero4(Xor(Combine(c0, c1, c2, c3), w0)), w1)), w2)), w3))
  {
    hide Combine, Zero16, Zero4, Xor;
    var d0, d1, d2 := Xor(w0, Zero16(c0)), Xor(w1, Zero16(c1)), Xor(w2, Zero16(c2));
    StripeStep(c0, c1, c2, c3, w0);
    StripeStep(c1, c2, c3, d0, w1);
    StripeStep(c2, c3, d0, d1, w2);
    StripeStep(c3, d0, d1, d2, w3);
  }

  /** The stride tables: what sixteen zero bytes make of a byte in each place of a word. */
  function Stride0(b: bv32): bv32 { Zero16(b << 24) }

  function Stride1(b: bv32): bv32 { Zero16(b << 16) }

  function Stride2(b: bv32): bv32 { Zero16(b << 8) }

  function Stride3(b: bv32): bv32 { Zero16(b) }

  lemma FourBytes(x: bv32)
    ensures x == Xor(Xor(Xor(x & 0xFF, ((x >> 8) & 0xFF) << 8), ((x >> 16) & 0xFF) << 16), (x >> 24) << 24)
  {
  }

  /** Four table look-ups advance a word by sixteen bytes. */
  lemma StridesAdvance(x: bv32)
    ensures Zero16(x)
         == Xor(Xor(Xor(Stride3(x & 0xFF), Stride2((x >> 8) & 0xFF)), Stride1((x >> 16) & 0xFF)), Stride0(x >> 24))
  {
    hide Zero16, Xor;
    FourBytes(x);
    var a, b, c, d := x & 0xFF, ((x >> 8) & 0xFF) << 8, ((x >> 16) & 0xFF) << 16, (x >> 24) << 24;
    Zero16Linear(Xor(Xor(a, b), c), d);
    Zero16Linear(Xor(a, b), c);
    Zero16Linear(a, b);
  }

  /** STEP4: advance a stripe, and let the next word of its data in. */
  method AdvanceStripe(c: bv32, w: bv32) returns (r: bv32)
    ensures r == Xor(w, Zero16(c))
  {
    StridesAdvance(c);
    hide Zero16, Xor;
    r := Xor(w, Xor(Xor(Xor(Stride3(c & 0xFF), Stride2((c >> 8) & 0xFF)), Stride1((c >> 16) & 0xFF)), Stride0(c >> 24)));
  }

  /** STEP4W: process a word that is already loaded. */
  method FoldWord(l: bv32, word: bv32) returns (r: bv32)
    ensures r == Zero4(Xor(l, word))
  {
    hide Xor, Zero1;
    var w := Xor(l, word);
    ghost var w0 := w;
    w := Zero1(w);
    w := Zero1(w);
    w := Zero1(w);
    w := Zero1(w);
    assert w == Zero4(w0);
    r := w;
  }

  function WordAt(data: seq<bv8>, p: nat): bv32
    requires p + 4 <= |data|
  {
    Word(data[p], data[p + 1], data[p + 2], data[p + 3])
  }

  lemma FoldNext(crc: bv32, data: seq<bv8>, p: nat)
    requires p < |data|
    ensures Fold(crc, data[..p + 1]) == StepByte(Fold(crc, data[..p]), data[p])
  {
    assert data[..p + 1][..p] == data[..p];
  }

  lemma FoldFour(crc: bv32, data: seq<bv8>, p: nat)
    requires p + 4 <= |data|
    ensures Fold(crc, data[..p + 4]) == Zero4(Xor(Fold(crc, data[..p]), WordAt(data, p)))
  {
    FoldNext(crc, data, p);
    FoldNext(crc, data, p + 1);
    FoldNext(crc, data, p + 2);
    FoldNext(crc, data, p + 3);
    WordEnters(Fold(crc, data[..p]), data[p], data[p + 1], data[p + 2], data[p + 3]);
    hide Fold, StepByte, Zero4, Xor, Word;
  }

  lemma FoldSixteen(crc: bv32, data: seq<bv8>, p: nat)
    requires p + 16 <= |data|
    ensures Fold(crc, data[..p + 16]) ==
      Zero4(Xor(Zero4(Xor(Zero4(Xor(Zero4(Xor(Fold(crc, data[..p]), WordAt(data, p))), WordAt(data, p + 4))),
        WordAt(data, p + 8))), WordAt(data, p + 12)))
  {
    hide Fold, Zero4, Xor, Word;
    FoldFour(crc, data, p);
    FoldFour(crc, data, p + 4);
    FoldFour(crc, data, p + 8);
    FoldFour(crc, data, p + 12);
  }

  /** Extend: single bytes up to an aligned address, then four interleaved stripes over
      sixteen bytes at a time, then words, then single bytes.  `toAlign` is the distance to
      the first aligned address. */
  method ExtendStriped(crc: bv32, data: seq<bv8>, toAlign: nat) returns (r: bv32)
    ensures r == Extend(crc, data)
  {
    hide Fold, StepByte, Xor, Combine, Zero16, Zero4, Word, WordAt, Invert;
    var l := Invert(crc);
    ghost var init := l;
    var p, e := 0, |data|;
    FoldNone(init, data);
    if toAlign <= e {
      while p != toAlign
        invariant p <= toAlign && l == Fold(init, data[..p])
      {
        FoldNext(init, data, p);
        l := StepByte(l, data[p]);
        p := p + 1;
      }
    }
    if e - p >= 16 {
      l, p := Stripes(init, data, l, p);
    }
    while p != e
      invariant p <= e && l == Fold(init, data[..p])
    {
      FoldNext(init, data, p);
      l := StepByte(l, data[p]);
      p := p + 1;
    }
    assert data[..e] == data;
    r := Invert(l);
  }

  lemma FoldNone(crc: bv32, data: seq<bv8>)
    ensures Fold(crc, data[..0]) == crc
  {
  }

  lemma FirstSwath(l: bv32, w0: bv32, w1: bv32, w2: bv32, w3: bv32)
    ensures Combine(Xor(w0, l), w1, w2, w3) == Zero4(Xor(Zero4(Xor(Zero4(Xor(Zero4(Xor(l, w0)), w1)), w2)), w3))
  {
    XorLaws(w0, l, 0, 0);
    hide Xor, Zero4;
  }

  /** The part of Extend that works on four stripes. */
  method Stripes(ghost init: bv32, data: seq<bv8>, l0: bv32, p0: nat) returns (l: bv32, p: nat)
    requires p0 + 16 <= |data| && l0 == Fold(init, data[..p0])
    ensures p <= |data| && l == Fold(init, data[..p])
  {
    hide Fold, StepByte, Xor, Zero16, Zero4, Word, WordAt, Combine;
    p := p0;
    var c0, c1, c2, c3 := Xor(WordAt(data, p), l0), WordAt(data, p + 4), WordAt(data, p + 8), WordAt(data, p + 12);
    FirstSwath(l0, WordAt(data, p), c1, c2, c3);
    FoldSixteen(init, data, p);
    p := p + 16;
    while |data| - p >= 16
      invariant p <= |data| && Combine(c0, c1, c2, c3) == Fold(init, data[..p])
    {
      SwathStep(c0, c1, c2, c3, WordAt(data, p), WordAt(data, p + 4), WordAt(data, p + 8), WordAt(data, p + 12));
      FoldSixteen(init, data, p);
      c0 := AdvanceStripe(c0, WordAt(data, p));
      c1 := AdvanceStripe(c1, WordAt(data, p + 4));
      c2 := AdvanceStripe(c2, WordAt(data, p + 8));
      c3 := AdvanceStripe(c3, WordAt(data, p + 12));
      p := p + 16;
    }
    while |data| - p >= 4
      invariant p <= |data| && Combine(c0, c1, c2, c3) == Fold(init, data[..p])
    {
      StripeStep(c0, c1, c2, c3, WordAt(data, p));
      FoldFour(init, data, p);
      c0 := AdvanceStripe(c0, WordAt(data, p));
      var tmp := c0;
      c0, c1, c2 := c1, c2, c3;
      c3 := tmp;
      p := p + 4;
    }
    l := CombineStripes(c0, c1, c2, c3);
  }

  method CombineStripes(c0: bv32, c1: bv32, c2: bv32, c3: bv32) returns (l: bv32)
    ensures l == Combine(c0, c1, c2, c3)
  {
    XorLaws(c0, 0, 0, 0);
    hide Xor, Zero4;
    l := FoldWord(0, c0);
    l := FoldWord(l, c1);
    l := FoldWord(l, c2);
    l := FoldWord(l, c3);
  }

  /** Extending over a concatenation is extending twice. */
  lemma ExtendConcat(crc: bv32, a: seq<bv8>, b: seq<bv8>)
    ensures Extend(crc, a + b) == Extend(Extend(crc, a), b)
  {
    FoldConcat(Invert(crc), a, b);
    TwiceInverted(Fold(Invert(crc), a));
    hide Fold, Invert;
  }

  lemma TwiceInverted(x: bv32)
    ensures Invert(Invert(x)) == x
  {
  }

  lemma {:induction false} FoldConcat(crc: bv32, a: seq<bv8>, b: seq<bv8>)
    ensures Fold(crc, a + b) == Fold(Fold(crc, a), b)
    decreases |b|
  {
    if b == [] {
      assert a + b == a;
    } else {
      var init := b[..|b| - 1];
      assert (a + b)[..|a + b| - 1] == a + init;
      FoldConcat(crc, a, init);
      hide StepByte;
    }
  }

  const MASK_DELTA: bv32 := 0xA282_EAD8

  function Mask(crc: bv32): bv32 {
    ((crc >> 15) | (crc << 17)) + MASK_DELTA
  }

  function Unmask(masked: bv32): bv32 {
    var rot := masked - MASK_DELTA;
    (rot >> 17) | (rot << 15)
  }

  /** Masking rotates the lower fifteen bits to the top and adds the constant. */
  lemma MaskRotates(high: bv32, low: bv32)
    requires high <= 0x1_FFFF && low <= 0x7FFF
    ensures Mask((high << 15) | low) == ((low << 17) | high) + 0xA282_EAD8
  {
  }

  lemma UnmaskMask(crc: bv32)
    ensures Unmask(Mask(crc)) == crc
  {
  }

  /** The stored form of a checksum, and the way back. */
  function Stored(crc: bv32): (b: Bytes)
    ensures |b| == 4
  {
    EncodeFixed32(Mask(crc) as nat)
  }

  function Loaded(b: Bytes): bv32
    requires |b| == 4
  {
    Unmask(DecodeFixed32(b) as bv32)
  }

  lemma LoadedStored(crc: bv32)
    ensures Loaded(Stored(crc)) == crc
  {
    StoredWord(Mask(crc));
    UnmaskMask(crc);
    hide Mask, Unmask;
  }

  lemma StoredWord(m: bv32)
    ensures DecodeFixed32(EncodeFixed32(m as nat)) as bv32 == m
  {
    FixedRoundTrip(m as nat);
    hide EncodeFixed32, DecodeFixed32;
  }
}
