/** CRC-32C as division of polynomials over the two-element field: what the tables and the
    shift register of util/crc32c.cc compute. */
module CrcDivision {
  import DbFormat
  import opened Crc32c

  // ---------- polynomials ----------

  /** A polynomial, as the exponents whose coefficient is one. */
  type Poly = set<nat>

  /** The generator of Castagnoli, section 12.1 of RFC 3720. */
  const GENERATOR: Poly := {32, 28, 27, 26, 25, 23, 22, 20, 19, 18, 14, 13, 11, 10, 9, 8, 6, 0}

  /** Coefficients add modulo two. */
  ghost function Plus(p: Poly, q: Poly): Poly { (p - q) + (q - p) }

  /** Multiplication by x. */
  ghost function TimesX(p: Poly): Poly { set e | e in p :: e + 1 }

  /** Multiplication by a power of x. */
  ghost function Raised(p: Poly, n: nat): Poly { set e | e in p :: e + n }

  /** The polynomial with these coefficients, that of the highest power first. */
  ghost function FromBits(bits: seq<bool>): Poly {
    if bits == [] then {}
    else Plus(TimesX(FromBits(bits[..|bits| - 1])), if bits[|bits| - 1] then {0} else {})
  }

  ghost function Digit(b: bool): Poly { if b then GENERATOR else {} }

  /** The product of the generator and the polynomial with these coefficients. */
  ghost function Multiple(bits: seq<bool>): Poly {
    if bits == [] then {}
    else Plus(TimesX(Multiple(bits[..|bits| - 1])), Digit(bits[|bits| - 1]))
  }

  /** What is left of `p` after division by the generator. */
  ghost predicate IsRemainder(p: Poly, r: Poly) {
    IsShort(r) && exists quotient: seq<bool> :: p == Plus(Multiple(quotient), r)
  }

  ghost predicate IsShort(r: Poly) { forall e :: e in r ==> e < 32 }

  lemma PlusLaws(p: Poly, q: Poly, r: Poly)
    ensures Plus(Plus(p, q), r) == Plus(p, Plus(q, r)) && Plus(p, q) == Plus(q, p)
    ensures Plus(p, p) == {} && Plus(p, {}) == p
  {
  }

  lemma TimesXAt(p: Poly, e: nat)
    ensures e in TimesX(p) <==> e > 0 && e - 1 in p
  {
    if e > 0 && e - 1 in p {
      assert (e - 1) + 1 in TimesX(p);
    }
  }

  lemma RaisedAt(p: Poly, n: nat, e: nat)
    ensures e in Raised(p, n) <==> e >= n && e - n in p
  {
    if e >= n && e - n in p {
      assert (e - n) + n in Raised(p, n);
    }
  }

  lemma TimesXPlus(p: Poly, q: Poly)
    ensures TimesX(Plus(p, q)) == Plus(TimesX(p), TimesX(q))
  {
    hide TimesX;
    forall e: nat
      ensures e in TimesX(Plus(p, q)) <==> e in Plus(TimesX(p), TimesX(q))
    {
      TimesXAt(p, e);
      TimesXAt(q, e);
      TimesXAt(Plus(p, q), e);
    }
  }

  // ---------- the remainder is unique ----------

  ghost predicate IsLong(p: Poly) { exists e :: e in p && e >= 32 && forall d :: d in p ==> d <= e }

  lemma GeneratorIsLong(e: nat)
    ensures 32 in GENERATOR && (e in GENERATOR ==> e <= 32)
  {
  }

  lemma DigitIsLong(b: bool)
    ensures Digit(b) == {} || IsLong(Digit(b))
    ensures forall e :: e in Digit(b) ==> e <= 32
  {
    DigitIn(b);
    hide Digit;
    if Digit(b) != {} {
      assert 32 in Digit(b);
    }
  }

  lemma DigitIn(b: bool)
    ensures Digit(b) == {} || 32 in Digit(b)
    ensures forall e :: e in Digit(b) ==> e <= 32
  {
    forall e | e in Digit(b)
      ensures e <= 32
    {
      GeneratorIsLong(e);
    }
    GeneratorIsLong(0);
  }

  lemma ShiftedIsLong(p: Poly, r: Poly)
    requires IsLong(p) && forall e :: e in r ==> e <= 32
    ensures IsLong(Plus(TimesX(p), r))
  {
    hide TimesX;
    var e :| e in p && e >= 32 && forall d :: d in p ==> d <= e;
    TimesXAt(p, e + 1);
    forall d | d in Plus(TimesX(p), r)
      ensures d <= e + 1
    {
      TimesXAt(p, d);
    }
  }

  /** A multiple of the generator is zero or has a power of at least 32. */
  lemma {:induction false} MultipleIsLong(q: seq<bool>)
    ensures Multiple(q) == {} || IsLong(Multiple(q))
  {
    hide IsLong, Digit;
    if q != [] {
      var init := Multiple(q[..|q| - 1]);
      MultipleIsLong(q[..|q| - 1]);
      DigitIsLong(q[|q| - 1]);
      if init == {} {
        assert Multiple(q) == Digit(q[|q| - 1]);
      } else {
        ShiftedIsLong(init, Digit(q[|q| - 1]));
      }
    }
  }

  lemma DigitPlus(a: bool, b: bool)
    ensures Plus(Digit(a), Digit(b)) == Digit(a != b)
  {
    PlusLaws(Digit(a), {}, {});
    PlusLaws(Digit(b), {}, {});
    hide Digit, Plus;
    if !a && !b {
      DigitOff();
    } else if !a || !b {
      DigitOff();
    } else {
      DigitOff();
    }
  }

  lemma DigitOff()
    ensures Digit(false) == {}
  {
  }

  lemma FourTerms(p: Poly, q: Poly, r: Poly, s: Poly)
    ensures Plus(Plus(p, q), Plus(r, s)) == Plus(Plus(p, r), Plus(q, s))
  {
  }

  lemma {:induction false} MultiplePlus(a: seq<bool>, b: seq<bool>) returns (c: seq<bool>)
    requires |a| == |b|
    ensures Plus(Multiple(a), Multiple(b)) == Multiple(c)
  {
    hide Digit, Plus, TimesX;
    if a == [] {
      PlusLaws({}, {}, {});
      c := [];
    } else {
      var n := |a| - 1;
      c := MultiplePlus(a[..n], b[..n]);
      TimesXPlus(Multiple(a[..n]), Multiple(b[..n]));
      FourTerms(TimesX(Multiple(a[..n])), Digit(a[n]), TimesX(Multiple(b[..n])), Digit(b[n]));
      DigitPlus(a[n], b[n]);
      c := c + [a[n] != b[n]];
      assert c[..|c| - 1] + [a[n] != b[n]] == c;
    }
  }

  /** Leading zeros do not count. */
  lemma {:induction false} MultiplePadded(a: seq<bool>, n: nat) returns (b: seq<bool>)
    ensures |b| == |a| + n && Multiple(b) == Multiple(a)
  {
    hide Digit, Plus, TimesX;
    if a != [] {
      b := MultiplePadded(a[..|a| - 1], n);
      b := b + [a[|a| - 1]];
      assert b[..|b| - 1] + [a[|a| - 1]] == b;
    } else {
      b := ZeroDigits(n);
    }
  }

  lemma {:induction false} ZeroDigits(n: nat) returns (b: seq<bool>)
    ensures |b| == n && Multiple(b) == {}
  {
    if n == 0 {
      b := [];
    } else {
      b := ZeroDigits(n - 1);
      b := b + [false];
      assert b[..|b| - 1] + [false] == b;
    }
  }

  lemma RemainderIsUnique(p: Poly, r: Poly, s: Poly)
    requires IsRemainder(p, r) && IsRemainder(p, s)
    ensures r == s
  {
    var a: seq<bool> :| p == Plus(Multiple(a), r);
    var b: seq<bool> :| p == Plus(Multiple(b), s);
    var a1 := MultiplePadded(a, |b|);
    var b1 := MultiplePadded(b, |a|);
    var c := MultiplePlus(a1, b1);
    MultipleIsLong(c);
    hide Multiple;
    Cancelled(p, Multiple(a), r, Multiple(b), s);
    assert IsShort(Plus(r, s));
    assert Plus(r, s) == {};
  }

  lemma Cancelled(p: Poly, m: Poly, r: Poly, n: Poly, s: Poly)
    requires p == Plus(m, r) && p == Plus(n, s)
    ensures Plus(m, n) == Plus(r, s)
  {
    hide Plus;
    FourTerms(m, r, n, s);
    PlusLaws(p, p, p);
    SumIsZero(Plus(m, n), Plus(r, s));
  }

  lemma SumIsZero(p: Poly, q: Poly)
    requires Plus(p, q) == {}
    ensures p == q
  {
  }

  // ---------- the register ----------

  /** The polynomial of `n` bits of a word, the lowest bit for the highest power. */
  ghost function Coefficients(c: bv32, n: nat): Poly {
    if n == 0 then {} else Coefficients(Half(c), n - 1) + if Odd(c) then {n - 1} else {}
  }

  predicate Odd(c: bv32) { c & 1 == 1 }

  function Half(c: bv32): bv32 { c >> 1 }

  /** The polynomial that the shift register holds, its bits being reversed. */
  ghost function Register(c: bv32): Poly { Coefficients(c, 32) }

  /** The bits of a byte, in the order in which they are sent: the lowest first. */
  function LowBitsFirst(b: bv32, n: nat): (r: seq<bool>)
    ensures |r| == n
  {
    if n == 0 then [] else [Odd(b)] + LowBitsFirst(Half(b), n - 1)
  }

  function DataBits(data: seq<bv8>): (r: seq<bool>)
    ensures |r| == 8 * |data|
  {
    if data == [] then [] else DataBits(data[..|data| - 1]) + LowBitsFirst(data[|data| - 1] as bv32, 8)
  }

  lemma {:induction false} CoefficientsShort(c: bv32, n: nat)
    ensures forall e :: e in Coefficients(c, n) ==> e < n
  {
    if n > 0 {
      CoefficientsShort(Half(c), n - 1);
    }
  }

  lemma HalfOfXor(c: bv32, d: bv32)
    ensures Half(Xor(c, d)) == Xor(Half(c), Half(d)) && (Odd(Xor(c, d)) <==> Odd(c) != Odd(d))
  {
    LowBits(c, d);
  }

  lemma {:induction false} CoefficientsXor(c: bv32, d: bv32, n: nat)
    ensures Coefficients(Xor(c, d), n) == Plus(Coefficients(c, n), Coefficients(d, n))
    decreases n
  {
    hide Xor, Odd, Half, Plus;
    if n == 0 {
      PlusLaws({}, {}, {});
    } else {
      CoefficientsXor(Half(c), Half(d), n - 1);
      HalfOfXor(c, d);
      CoefficientsShort(Half(c), n - 1);
      CoefficientsShort(Half(d), n - 1);
      PlusOnTop(Coefficients(Half(c), n - 1), Odd(c), Coefficients(Half(d), n - 1), Odd(d), n - 1);
    }
  }

  lemma PlusOnTop(p: Poly, a: bool, q: Poly, b: bool, n: nat)
    requires forall e :: e in p || e in q ==> e < n
    ensures Plus(p, q) + (if a != b then {n} else {}) == Plus(p + (if a then {n} else {}), q + if b then {n} else {})
  {
  }

  function Shifted(c: bv32, n: nat): bv32 {
    if n == 0 then c else Shifted(Half(c), n - 1)
  }

  lemma {:induction false} ShiftedTwice(c: bv32, m: nat, n: nat)
    ensures Shifted(c, m + n) == Shifted(Shifted(c, m), n)
  {
    if m > 0 {
      ShiftedTwice(Half(c), m - 1, n);
    }
  }

  lemma ShiftedByFour(c: bv32)
    ensures Shifted(c, 4) == c >> 4
  {
    HalfFourTimes(c);
    hide Half;
    assert Shifted(Half(c), 3) == Shifted(Half(Half(c)), 2);
    assert Shifted(Half(Half(c)), 2) == Shifted(Half(Half(Half(c))), 1);
    assert Shifted(Half(Half(Half(c))), 1) == Shifted(Half(Half(Half(Half(c)))), 0);
  }

  lemma HalfTwice(c: bv32)
    ensures (c >> 1) >> 1 == c >> 2
  {
  }

  lemma HalfTwiceMore(c: bv32)
    ensures (c >> 2) >> 1 == c >> 3
  {
  }

  lemma HalfOnceMore(c: bv32)
    ensures (c >> 3) >> 1 == c >> 4
  {
  }

  lemma HalfFourTimes(c: bv32)
    ensures Half(Half(c)) == c >> 2 && Half(Half(Half(c))) == c >> 3 && Half(Half(Half(Half(c)))) == c >> 4
  {
    HalfTwice(c);
    HalfTwiceMore(c);
    HalfOnceMore(c);
  }

  lemma FourBits(c: bv32)
    ensures Odd(c >> 1) == (c & 2 == 2) && Odd(c >> 2) == (c & 4 == 4) && Odd(c >> 3) == (c & 8 == 8)
  {
  }

  function Fourth(c: bv32): bv32 { c >> 4 }

  lemma FourthsVanish(c: bv32)
    ensures Fourth(Fourth(Fourth(Fourth(Fourth(Fourth(Fourth(Fourth(c)))))))) == 0
  {
  }

  lemma ShiftedMore(c: bv32, n: nat)
    ensures Shifted(c, n + 4) == Shifted(Fourth(c), n)
  {
    ShiftedTwice(c, 4, n);
    ShiftedByFour(c);
  }

  /** Nothing is left of a word after all its bits. */
  lemma ShiftedOut(c: bv32)
    ensures Shifted(c, 32) == 0
  {
    FourthsVanish(c);
    hide Fourth, Shifted;
    var c2 := Fourth(Fourth(c));
    var c4 := Fourth(Fourth(c2));
    var c6 := Fourth(Fourth(c4));
    ShiftedMore(c, 28);
    ShiftedMore(Fourth(c), 24);
    ShiftedMore(c2, 20);
    ShiftedMore(Fourth(c2), 16);
    ShiftedMore(c4, 12);
    ShiftedMore(Fourth(c4), 8);
    ShiftedMore(c6, 4);
    ShiftedMore(Fourth(c6), 0);
    NotShifted(Fourth(Fourth(c6)));
  }

  lemma NotShifted(c: bv32)
    ensures Shifted(c, 0) == c
  {
  }

  /** One more bit at the top of the word is the constant term. */
  lemma {:induction false} CoefficientsMore(c: bv32, n: nat)
    ensures Coefficients(c, n + 1) == TimesX(Coefficients(c, n)) + if Odd(Shifted(c, n)) then {0} else {}
    decreases n
  {
    hide Odd, Half;
    if n == 0 {
      assert Coefficients(Half(c), 0) == {};
      assert TimesX({}) == {};
    } else {
      CoefficientsMore(Half(c), n - 1);
      TimesXWith(Coefficients(Half(c), n - 1), Odd(c), n - 1);
      hide TimesX;
    }
  }

  lemma TimesXWith(p: Poly, b: bool, n: nat)
    ensures TimesX(p + if b then {n} else {}) == TimesX(p) + if b then {n + 1} else {}
  {
    var q := p + if b then {n} else {};
    forall e: nat
      ensures e in TimesX(q) <==> e in TimesX(p) + if b then {n + 1} else {}
    {
      TimesXAt(q, e);
      TimesXAt(p, e);
    }
  }

  /** A shift of the register multiplies by x; the lowest bit of the word leaves at the top. */
  lemma ShiftIsTimesX(c: bv32)
    ensures TimesX(Register(c)) == Register(Half(c)) + if Odd(c) then {32} else {}
    ensures 32 !in Register(Half(c))
  {
    CoefficientsMore(Half(c), 31);
    ShiftedOut(c);
    CoefficientsShort(Half(c), 32);
    assert Shifted(Half(c), 31) == Shifted(c, 32);
    assert Coefficients(c, 32) == Coefficients(Half(c), 31) + if Odd(c) then {31} else {};
    hide Half, Coefficients, Shifted;
  }

  lemma Nibble(c: bv32, n: nat)
    requires n >= 4
    ensures Coefficients(c, n) == Coefficients(c >> 4, n - 4) + (if c & 1 == 1 then {n - 1} else {})
      + (if c & 2 == 2 then {n - 2} else {}) + (if c & 4 == 4 then {n - 3} else {}) + if c & 8 == 8 then {n - 4} else {}
  {
    HalfFourTimes(c);
    FourBits(c);
    assert Odd(c) == (c & 1 == 1);
    hide Half, Odd;
    var c1 := Half(c);
    var c2 := Half(c1);
    assert Coefficients(c1, n - 1) == Coefficients(c2, n - 2) + if Odd(c1) then {n - 2} else {};
    assert Coefficients(c2, n - 2) == Coefficients(Half(c2), n - 3) + if Odd(c2) then {n - 3} else {};
    assert Coefficients(Half(c2), n - 3) == Coefficients(c >> 4, n - 4) + if Odd(Half(c2)) then {n - 4} else {};
  }

  lemma LowestNibble()
    ensures Coefficients(0x0000_0008, 4) == {0}
  {
    Nibble(0x0000_0008, 4);
  }

  lemma LowerNibbles()
    ensures Coefficients(0x82F6, 16) == {0, 6, 8, 9, 10, 11, 13, 14}
  {
    hide Coefficients;
    LowestNibble();
    Nibble(0x0000_0082, 8);
    assert Coefficients(0x82, 8) == {0, 6};
    Nibble(0x0000_082F, 12);
    assert Coefficients(0x82F, 12) == {0, 6, 8, 9, 10, 11};
    Nibble(0x0000_82F6, 16);
  }

  lemma UpperNibbles()
    ensures Coefficients(0x82F6_3B78, 32)
      == {0, 6, 8, 9, 10, 11, 13, 14, 18, 19, 20, 22, 23, 25, 26, 27, 28}
  {
    hide Coefficients;
    LowerNibbles();
    Nibble(0x0008_2F63, 20);
    assert Coefficients(0x8_2F63, 20) == {0, 6, 8, 9, 10, 11, 13, 14, 18, 19};
    Nibble(0x0082_F63B, 24);
    assert Coefficients(0x82_F63B, 24) == {0, 6, 8, 9, 10, 11, 13, 14, 18, 19, 20, 22, 23};
    Nibble(0x082F_63B7, 28);
    assert Coefficients(0x82F_63B7, 28) == {0, 6, 8, 9, 10, 11, 13, 14, 18, 19, 20, 22, 23, 25, 26, 27};
    Nibble(0x82F6_3B78, 32);
  }

  /** The constant of the source is the generator without its highest power. */
  lemma PolynomialIsGenerator()
    ensures Register(POLYNOMIAL) == GENERATOR - {32}
  {
    hide Coefficients;
    UpperNibbles();
  }

  // ---------- one bit at a time ----------

  /** One bit of the message enters at the low end of the word, and the register shifts. */
  function BitStep(c: bv32, b: bool): bv32 { Bit(Xor(c, if b then 1 else 0)) }

  function FoldBits(c: bv32, bits: seq<bool>): bv32 {
    if bits == [] then c else BitStep(FoldBits(c, bits[..|bits| - 1]), bits[|bits| - 1])
  }

  lemma BitIsHalf(c: bv32)
    ensures Bit(c) == if Odd(c) then Xor(Half(c), POLYNOMIAL) else Half(c)
  {
  }

  lemma RegisterXor(c: bv32, d: bv32)
    ensures Register(Xor(c, d)) == Plus(Register(c), Register(d))
  {
    CoefficientsXor(c, d, 32);
  }

  lemma {:induction false} NoCoefficients(n: nat)
    ensures Coefficients(0, n) == {}
  {
    if n > 0 {
      assert Half(0) == 0 && !Odd(0);
      NoCoefficients(n - 1);
    }
  }

  lemma RegisterOfBit(b: bool)
    ensures Register(if b then 1 else 0) == if b then {31} else {}
  {
    NoCoefficients(31);
    NoCoefficients(32);
    assert Half(1) == 0 && Odd(1);
    hide Half, Odd;
  }

  /** Subtracting the generator when a power of 32 leaves the register. */
  lemma RegisterBit(d: bv32)
    ensures TimesX(Register(d)) == Plus(Digit(Odd(d)), Register(Bit(d)))
  {
    ShiftIsTimesX(d);
    BitIsHalf(d);
    RegisterXor(Half(d), POLYNOMIAL);
    PolynomialIsGenerator();
    GeneratorIsLong(0);
    hide Bit, Register, Half, Odd, TimesX, Xor;
    if Odd(d) {
      CarryOut(Register(Half(d)));
    } else {
      DigitOff();
      PlusLaws(Register(Half(d)), {}, {});
      PlusLaws({}, Register(Half(d)), {});
    }
  }

  lemma CarryOut(p: Poly)
    requires 32 !in p
    ensures p + {32} == Plus(Digit(true), Plus(p, GENERATOR - {32}))
  {
    GeneratorIsLong(0);
    var g := GENERATOR;
    assert Digit(true) == g;
    Carried(p, g);
  }

  lemma Carried(p: Poly, g: Poly)
    requires 32 !in p && 32 in g
    ensures p + {32} == Plus(g, Plus(p, g - {32}))
  {
  }

  lemma RegisterStep(c: bv32, b: bool)
    ensures Plus(TimesX(Register(c)), if b then {32} else {})
         == Plus(Digit(Odd(c) != b), Register(BitStep(c, b)))
  {
    var u: bv32 := if b then 1 else 0;
    RegisterXor(c, u);
    RegisterOfBit(b);
    RegisterBit(Xor(c, u));
    HalfOfXor(c, u);
    TimesXPlus(Register(c), Register(u));
    TimesXOfBit(b);
    assert Odd(u) == b;
    hide Bit, Register, Half, Odd, TimesX, Xor, Plus, Digit;
  }

  lemma TimesXOfBit(b: bool)
    ensures TimesX(if b then {31} else {}) == if b then {32} else {}
  {
    TimesXWith({}, b, 31);
    var none: Poly := {};
    assert TimesX(none) == none;
  }

  lemma RaisedMore(p: Poly, n: nat)
    ensures Raised(p, n + 1) == TimesX(Raised(p, n)) && Raised(p, 0) == p
  {
    forall e: nat
      ensures e in Raised(p, n + 1) <==> e in TimesX(Raised(p, n))
      ensures e in Raised(p, 0) <==> e in p
    {
      RaisedAt(p, n + 1, e);
      RaisedAt(p, 0, e);
      TimesXAt(Raised(p, n), e);
      if e > 0 {
        RaisedAt(p, n, e - 1);
      }
    }
  }

  lemma RaisedBit(p: Poly, b: bool, n: nat)
    ensures Raised(Plus(TimesX(p), if b then {0} else {}), n) == Plus(TimesX(Raised(p, n)), if b then {n} else {})
  {
    var q: Poly := Plus(TimesX(p), if b then {0} else {});
    forall e: nat
      ensures e in Raised(q, n) <==> e in Plus(TimesX(Raised(p, n)), if b then {n} else {})
    {
      RaisedAt(q, n, e);
      TimesXAt(Raised(p, n), e);
      if e > n {
        RaisedAt(p, n, e - 1);
        TimesXAt(p, e - n);
      } else if e > 0 {
        RaisedAt(p, n, e - 1);
      }
      if e == n {
        TimesXAt(p, 0);
      }
    }
  }

  /** The register, the bits that have entered and the quotient so far. */
  lemma {:induction false} BitsDivide(c: bv32, bits: seq<bool>) returns (quotient: seq<bool>)
    ensures Plus(Raised(Register(c), |bits|), Raised(FromBits(bits), 32))
         == Plus(Multiple(quotient), Register(FoldBits(c, bits)))
    decreases |bits|
  {
    var p := Register(c);
    if bits == [] {
      quotient := [];
      RaisedMore(p, 0);
      var none: Poly := {};
      assert Raised(none, 32) == none;
      PlusLaws(p, none, none);
      hide Register, Plus;
    } else {
      var n := |bits| - 1;
      var init, b := bits[..n], bits[n];
      var q := BitsDivide(c, init);
      var r := FoldBits(c, init);
      RegisterStep(r, b);
      RaisedMore(p, n);
      RaisedBit(FromBits(init), b, 32);
      quotient := q + [Odd(r) != b];
      assert quotient[..|q|] == q;
      NextDigit(Raised(p, n), Raised(FromBits(init), 32), b, Multiple(q), Register(r), Odd(r) != b,
        Register(BitStep(r, b)));
      hide Register, Plus, TimesX, Digit, BitStep, Raised;
    }
  }

  lemma NextDigit(p: Poly, m: Poly, b: bool, q: Poly, r: Poly, digit: bool, next: Poly)
    requires Plus(p, m) == Plus(q, r)
    requires Plus(TimesX(r), if b then {32} else {}) == Plus(Digit(digit), next)
    ensures Plus(TimesX(p), Plus(TimesX(m), if b then {32} else {})) == Plus(Plus(TimesX(q), Digit(digit)), next)
  {
    TimesXPlus(p, m);
    TimesXPlus(q, r);
    var bit: Poly := if b then {32} else {};
    hide Plus, TimesX, Digit;
    PlusLaws(TimesX(p), TimesX(m), bit);
    PlusLaws(TimesX(q), TimesX(r), bit);
    PlusLaws(TimesX(q), Digit(digit), next);
  }

  // ---------- eight bits at a time ----------

  function BitN(x: bv32, n: nat): bv32
    decreases n
  {
    if n == 0 then x else BitN(Bit(x), n - 1)
  }

  lemma TableIsEightBits(x: bv32)
    ensures BitN(x, 8) == Table(x)
  {
    hide Bit;
    var y := Bit4(x);
    assert BitN(x, 8) == BitN(Bit2(x), 6);
    assert BitN(Bit2(x), 6) == BitN(y, 4);
    assert BitN(y, 4) == BitN(Bit2(y), 2);
  }

  lemma {:induction false} FoldBitsFirst(c: bv32, b: bool, bits: seq<bool>)
    ensures FoldBits(c, [b] + bits) == FoldBits(BitStep(c, b), bits)
    decreases |bits|
  {
    hide BitStep;
    var n := |bits|;
    if n == 0 {
      assert ([b] + bits)[..0] == [];
    } else {
      FoldBitsFirst(c, b, bits[..n - 1]);
      assert ([b] + bits)[..n] == [b] + bits[..n - 1];
    }
  }

  lemma {:induction false} FoldBitsConcat(c: bv32, a: seq<bool>, b: seq<bool>)
    ensures FoldBits(c, a + b) == FoldBits(FoldBits(c, a), b)
    decreases |b|
  {
    hide BitStep;
    var n := |b|;
    if n == 0 {
      assert a + b == a;
    } else {
      FoldBitsConcat(c, a, b[..n - 1]);
      assert (a + b)[..|a| + n - 1] == a + b[..n - 1];
    }
  }

  lemma EvenPart(c: bv32, b: bv32)
    ensures c ^ b == (c ^ (b & 1)) ^ (b & 0xFFFF_FFFE)
    ensures (b & 0xFFFF_FFFE) & 1 == 0 && (b & 0xFFFF_FFFE) >> 1 == b >> 1
  {
  }

  lemma LowestBit(b: bv32)
    ensures b & 1 == if Odd(b) then 1 else 0
  {
  }

  lemma EvenRest(c: bv32, b: bv32)
    ensures Xor(c, b) == Xor(Xor(c, if Odd(b) then 1 else 0), b & 0xFFFF_FFFE)
    ensures Bit(b & 0xFFFF_FFFE) == Half(b)
  {
    EvenPart(c, b);
    LowestBit(b);
    BitIsHalf(b & 0xFFFF_FFFE);
    hide Bit;
  }

  /** The other bits of a byte may enter with its lowest one. */
  lemma RestWaits(c: bv32, b: bv32)
    ensures Bit(Xor(c, b)) == Xor(BitStep(c, Odd(b)), Half(b))
  {
    EvenRest(c, b);
    BitLinear(Xor(c, if Odd(b) then 1 else 0), b & 0xFFFF_FFFE);
    hide Bit, Xor, Half, Odd;
  }

  lemma {:induction false} BitsEnter(c: bv32, b: bv32, n: nat)
    requires Shifted(b, n) == 0
    ensures FoldBits(c, LowBitsFirst(b, n)) == BitN(Xor(c, b), n)
    decreases n
  {
    hide BitStep, Bit, Xor, Half, Odd;
    if n == 0 {
      XorLaws(c, 0, 0, 0);
    } else {
      RestWaits(c, b);
      BitsEnter(BitStep(c, Odd(b)), Half(b), n - 1);
      FoldBitsFirst(c, Odd(b), LowBitsFirst(Half(b), n - 1));
    }
  }

  lemma UpperBytes(c: bv32, b: bv8)
    ensures Xor(c, b as bv32) == Xor(Xor(Low(c), b as bv32), c & 0xFFFF_FF00)
  {
  }

  lemma NibbleOut(x: bv32)
    requires x & 0xF == 0
    ensures Bit4(x) == x >> 4
  {
  }

  lemma ByteOut(c: bv32)
    ensures Table(c & 0xFFFF_FF00) == High(c)
  {
    var x := c & 0xFFFF_FF00;
    NibbleOut(x);
    NibbleOut(x >> 4);
    hide Bit4;
  }

  lemma ByteGone(b: bv8)
    ensures Shifted(b as bv32, 8) == 0
  {
    ShiftedMore(b as bv32, 4);
    ShiftedMore(Fourth(b as bv32), 0);
    NotShifted(Fourth(Fourth(b as bv32)));
    hide Shifted;
  }

  lemma ByteEnters(c: bv32, b: bv8)
    ensures FoldBits(c, LowBitsFirst(b as bv32, 8)) == StepByte(c, b)
  {
    ByteGone(b);
    BitsEnter(c, b as bv32, 8);
    TableIsEightBits(Xor(c, b as bv32));
    UpperBytes(c, b);
    TableLinear(Xor(Low(c), b as bv32), c & 0xFFFF_FF00);
    ByteOut(c);
    hide FoldBits, BitN, Table, Xor, Low, High, LowBitsFirst, Shifted;
  }

  lemma {:induction false} FoldIsFoldBits(c: bv32, data: seq<bv8>)
    ensures FoldBits(c, DataBits(data)) == Fold(c, data)
    decreases |data|
  {
    hide FoldBits, LowBitsFirst, StepByte;
    if data == [] {
      NoBits(c);
    } else {
      var init, b := data[..|data| - 1], data[|data| - 1];
      FoldIsFoldBits(c, init);
      FoldBitsConcat(c, DataBits(init), LowBitsFirst(b as bv32, 8));
      ByteEnters(Fold(c, init), b);
    }
  }

  lemma NoBits(c: bv32)
    ensures FoldBits(c, []) == c
  {
  }

  // ---------- the theorems ----------

  /** The dividend: what was in the register, moved up by the length of the data, and the
      bits of the data, moved up by the width of the register. */
  ghost function Dividend(crc: bv32, data: seq<bv8>): Poly {
    Plus(Raised(Register(crc), 8 * |data|), Raised(FromBits(DataBits(data)), 32))
  }

  /** The register after some bytes is the remainder, and no other word is. */
  lemma FoldIsRemainder(crc: bv32, data: seq<bv8>, r: bv32)
    ensures r == Fold(crc, data) <==> IsRemainder(Dividend(crc, data), Register(r))
  {
    var fold := Fold(crc, data);
    var quotient := BitsDivide(crc, DataBits(data));
    FoldIsFoldBits(crc, data);
    CoefficientsShort(fold, 32);
    hide Fold, Plus, Raised, DataBits;
    assert IsRemainder(Dividend(crc, data), Register(fold));
    if IsRemainder(Dividend(crc, data), Register(r)) {
      RemainderIsUnique(Dividend(crc, data), Register(r), Register(fold));
      RegisterInjective(r, fold);
    }
  }

  lemma RegisterInjective(c: bv32, d: bv32)
    requires Register(c) == Register(d)
    ensures c == d
  {
    RegisterXor(c, d);
    PlusLaws(Register(c), {}, {});
    hide Register, Plus, Xor;
    RegisterZero(Xor(c, d));
    XorZero(c, d);
  }

  lemma XorZero(c: bv32, d: bv32)
    requires Xor(c, d) == 0
    ensures c == d
  {
  }

  lemma RegisterZero(c: bv32)
    requires Register(c) == {}
    ensures c == 0
  {
    ShiftedOut(c);
    NoBitsLeft(c, 32);
  }

  lemma {:induction false} NoBitsLeft(c: bv32, n: nat)
    requires Coefficients(c, n) == {} && Shifted(c, n) == 0
    ensures c == 0
    decreases n
  {
    hide Half, Odd;
    if n > 0 {
      assert Odd(c) ==> n - 1 in Coefficients(c, n);
      NoBitsLeft(Half(c), n - 1);
      HalfIsZero(c);
    }
  }

  lemma HalfIsZero(c: bv32)
    requires Half(c) == 0 && !Odd(c)
    ensures c == 0
  {
  }

  /** The checksum of some data is the inverted remainder after a start with all ones, and
      no other word is. */
  lemma ValueIsRemainder(data: DbFormat.Bytes, v: bv32)
    ensures v == Crc32c.Value(data) <==> IsRemainder(Dividend(0xFFFF_FFFF, Bits(data)), Register(Invert(v)))
  {
    FoldIsRemainder(Invert(0), Bits(data), Invert(v));
    TwiceInverted(v);
    TwiceInverted(Fold(Invert(0), Bits(data)));
    assert Invert(0) == 0xFFFF_FFFF;
    hide Fold, Invert, Bits, IsRemainder;
  }

  // ---------- the check value of the source ----------

  lemma CheckBytes0()
    ensures StepByte(0xFFFF_FFFF, 0x54) == 0x3B3D_E162
    ensures StepByte(0x3B3D_E162, 0x65) == 0xD4F1_590A
    ensures StepByte(0xD4F1_590A, 0x73) == 0x09FE_7E98
  {
  }

  lemma CheckBytes1()
    ensures StepByte(0x09FE_7E98, 0x74) == 0xAE7A_99B4
    ensures StepByte(0xAE7A_99B4, 0x43) == 0x270A_7107
    ensures StepByte(0x270A_7107, 0x52) == 0x64F3_C4BE
  {
  }

  lemma CheckBytes2()
    ensures StepByte(0x64F3_C4BE, 0x43) == 0x4C22_D062
    ensures StepByte(0x4C22_D062, 0x42) == 0x20F1_AC0E
    ensures StepByte(0x20F1_AC0E, 0x75) == 0xE831_0E9A
  {
  }

  lemma CheckBytes3()
    ensures StepByte(0xE831_0E9A, 0x66) == 0xBEC5_91AB
    ensures StepByte(0xBEC5_91AB, 0x66) == 0x7C1B_AF86
    ensures StepByte(0x7C1B_AF86, 0x65) == 0xF01C_4041
    ensures StepByte(0xF01C_4041, 0x72) == 0x2343_A605
  {
  }

  lemma CheckFold(data: seq<bv8>)
    requires |data| == 13
    requires data[0] == 0x54 && data[1] == 0x65 && data[2] == 0x73 && data[3] == 0x74 && data[4] == 0x43
    requires data[5] == 0x52 && data[6] == 0x43 && data[7] == 0x42 && data[8] == 0x75
    requires data[9] == 0x66 && data[10] == 0x66 && data[11] == 0x65 && data[12] == 0x72
    ensures Fold(0xFFFF_FFFF, data) == 0x2343_A605
  {
    hide Fold, StepByte;
    FoldNone(0xFFFF_FFFF, data);
    FoldNext(0xFFFF_FFFF, data, 0);
    FoldNext(0xFFFF_FFFF, data, 1);
    FoldNext(0xFFFF_FFFF, data, 2);
    FoldNext(0xFFFF_FFFF, data, 3);
    FoldNext(0xFFFF_FFFF, data, 4);
    FoldNext(0xFFFF_FFFF, data, 5);
    FoldNext(0xFFFF_FFFF, data, 6);
    FoldNext(0xFFFF_FFFF, data, 7);
    FoldNext(0xFFFF_FFFF, data, 8);
    FoldNext(0xFFFF_FFFF, data, 9);
    FoldNext(0xFFFF_FFFF, data, 10);
    FoldNext(0xFFFF_FFFF, data, 11);
    FoldNext(0xFFFF_FFFF, data, 12);
    CheckBytes0();
    CheckBytes1();
    CheckBytes2();
    CheckBytes3();
    assert data[..13] == data;
  }

  /** What CanAccelerateCRC32C expects for the string TestCRCBuffer. */
  lemma CheckValue()
    ensures Extend(0, [0x54, 0x65, 0x73, 0x74, 0x43, 0x52, 0x43, 0x42, 0x75, 0x66, 0x66, 0x65, 0x72]) == 0xDCBC_59FA
  {
    var data: seq<bv8> := [0x54, 0x65, 0x73, 0x74, 0x43, 0x52, 0x43, 0x42, 0x75, 0x66, 0x66, 0x65, 0x72];
    CheckFold(data);
    hide Fold;
  }
}
