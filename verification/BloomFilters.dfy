/** Bloom filters (util/bloom.cc).  The hash of a key is a parameter: what is proved holds
    for every hash function. */
module BloomFilters {
  import opened DbFormat
  import opened Coding

  type Hash32 = h: nat | h < TWO_TO_32

  function PowerOfTwo(i: nat): nat {
    if i == 0 then 1 else 2 * PowerOfTwo(i - 1)
  }

  /** (n >> i) & 1 */
  predicate BitOf(n: nat, i: nat)
    decreases i
  {
    if i == 0 then n % 2 == 1 else BitOf(n / 2, i - 1)
  }

  predicate HasBit(b: Byte, i: nat) {
    BitOf(b as nat, i)
  }

  /** b | (1 << i) */
  function WithBit(b: Byte, i: nat): Byte
    requires i < 8
  {
    if HasBit(b, i) then b
    else
      assert PowerOfTwo(8) == 256 by { assert PowerOfTwo(4) == 16; }
      BitFits(b as nat, i, 8);
      (b as nat + PowerOfTwo(i)) as Byte
  }

  lemma {:induction false} BitFits(n: nat, i: nat, m: nat)
    requires i < m && n < PowerOfTwo(m) && !BitOf(n, i)
    ensures n + PowerOfTwo(i) < PowerOfTwo(m)
    decreases i
  {
    if i > 0 {
      BitFits(n / 2, i - 1, m - 1);
    }
  }

  lemma BitsOfWithBit(b: Byte, i: nat, j: nat)
    requires i < 8
    ensures HasBit(WithBit(b, i), j) <==> j == i || HasBit(b, j)
  {
    if !HasBit(b, i) {
      OneBitAdded(b as nat, i, j);
    }
  }

  lemma {:induction false} OneBitAdded(n: nat, i: nat, j: nat)
    requires !BitOf(n, i)
    ensures BitOf(n + PowerOfTwo(i), j) <==> j == i || BitOf(n, j)
    decreases i
  {
    if i == 0 {
      assert (n + 1) / 2 == n / 2;
    } else {
      assert (n + PowerOfTwo(i)) / 2 == n / 2 + PowerOfTwo(i - 1);
      if j > 0 {
        OneBitAdded(n / 2, i - 1, j - 1);
      }
    }
  }

  /** (h >> 17) | (h << 15) on 32-bit words. */
  function Rotated(h: Hash32): Hash32 {
    h / 0x2_0000 + h % 0x2_0000 * 0x8000
  }

  /** The hash of the `j`-th probe. */
  function ProbeHash(h: Hash32, j: nat): Hash32 {
    if j == 0 then h else (ProbeHash(h, j - 1) + Rotated(h)) % TWO_TO_32
  }

  predicate BitAt(bits: Bytes, pos: nat) {
    pos / 8 < |bits| && HasBit(bits[pos / 8], pos % 8)
  }

  /** The first `k` probes of the key hit set bits. */
  predicate AllSet(bits: Bytes, h: Hash32, k: nat)
    requires bits != []
  {
    forall j :: 0 <= j < k ==> BitAt(bits, ProbeHash(h, j) % (|bits| * 8))
  }

  /** Some probe of some key goes to that bit. */
  ghost predicate Probed(hashes: seq<Hash32>, k: nat, size: nat, pos: nat)
    requires size > 0
  {
    exists i, j :: 0 <= i < |hashes| && 0 <= j < k && ProbeHash(hashes[i], j) % size == pos
  }

  class BloomFilterPolicy {
    const bitsPerKey: nat
    const k: nat
    const hash: Bytes -> Hash32

    /** The number of probes that suits the number of bits is chosen by the caller; it is
        kept between 1 and 30. */
    constructor (bitsPerKey: nat, probes: nat, hash: Bytes -> Hash32)
      ensures 1 <= k <= 30 && (k == probes || (probes == 0 && k == 1) || (probes > 30 && k == 30))
      ensures this.hash == hash && this.bitsPerKey == bitsPerKey
    {
      this.bitsPerKey, this.hash := bitsPerKey, hash;
      k := if probes < 1 then 1 else if probes > 30 then 30 else probes;
    }

    /** CreateFilter: the least number of whole bytes, eight at least, that has the bits asked
        for each key; the bits that are set are exactly those some key probes. */
    method CreateFilter(keys: seq<Bytes>, dst: Bytes) returns (result: Bytes)
      requires 1 <= k <= 30
      ensures |result| >= |dst| + 9 && result[..|dst|] == dst
      ensures result[|result| - 1] as nat == k
      ensures var bits := 8 * (|result| - |dst| - 1);
        bits >= 64 && bits >= |keys| * bitsPerKey && (bits == 64 || bits - 8 < |keys| * bitsPerKey)
      ensures var bits := result[|dst|..|result| - 1]; IsFilter(keys, bits)
    {
      var bits := |keys| * bitsPerKey;
      if bits < 64 {
        bits := 64;
      }
      var bytes := (bits + 7) / 8;
      var filter := new Byte[bytes](i => 0);
      ghost var hashes: seq<Hash32> := [];
      NothingMarked(filter[..], k);
      for i := 0 to |keys|
        invariant |hashes| == i && forall a :: 0 <= a < i ==> hashes[a] == hash(keys[a])
        invariant Marked(filter[..], hashes, k)
      {
        SetProbes(filter, hash(keys[i]), hashes);
        hashes := hashes + [hash(keys[i])];
      }
      result := dst + filter[..] + [k as Byte];
      assert result[|dst|..|result| - 1] == filter[..];
      assert hashes == Hashes(keys);
    }

    function Hashes(keys: seq<Bytes>): seq<Hash32> {
      seq(|keys|, i requires 0 <= i < |keys| => hash(keys[i]))
    }

    ghost predicate IsFilter(keys: seq<Bytes>, bits: Bytes) {
      bits != [] && Marked(bits, Hashes(keys), k)
    }

    method SetProbes(filter: array<Byte>, h0: Hash32, ghost hashes: seq<Hash32>)
      requires filter.Length > 0 && Marked(filter[..], hashes, k)
      modifies filter
      ensures Marked(filter[..], hashes + [h0], k)
    {
      var h := h0;
      var delta := Rotated(h0);
      ghost var was := filter[..];
      for j := 0 to k
        invariant h == ProbeHash(h0, j)
        invariant forall pos: nat :: BitAt(filter[..], pos) <==> BitAt(was, pos) || HitBefore(h0, j, filter.Length * 8, pos)
      {
        var bitpos := h % (filter.Length * 8);
        ghost var before := filter[..];
        filter[bitpos / 8] := WithBit(filter[bitpos / 8], bitpos % 8);
        BitJoins(before, filter[..], bitpos);
        h := (h + delta) % TWO_TO_32;
      }
      MarksJoin(was, filter[..], hashes, h0, k);
    }

    /** KeyMayMatch. */
    method KeyMayMatch(key: Bytes, filter: Bytes) returns (r: bool)
      ensures r == MayMatch(key, filter)
    {
      hide HasBit, BitAt, Rotated;
      if |filter| < 2 {
        return false;
      }
      var bits := (|filter| - 1) * 8;
      var probes := filter[|filter| - 1] as nat;
      if probes > 30 {
        return true;
      }
      var h := hash(key);
      var delta := Rotated(h);
      ghost var bytes := filter[..|filter| - 1];
      for j := 0 to probes
        invariant h == ProbeHash(hash(key), j)
        invariant AllSet(bytes, hash(key), j)
      {
        var bitpos := h % bits;
        BitInFilter(filter, bitpos);
        if !HasBit(filter[bitpos / 8], bitpos % 8) {
          assert !BitAt(bytes, ProbeHash(hash(key), j) % (|bytes| * 8));
          return false;
        }
        h := (h + delta) % TWO_TO_32;
      }
      r := true;
    }

    lemma BitInFilter(filter: Bytes, bitpos: nat)
      requires filter != [] && bitpos < (|filter| - 1) * 8
      ensures bitpos / 8 < |filter| - 1
      ensures HasBit(filter[bitpos / 8], bitpos % 8) <==> BitAt(filter[..|filter| - 1], bitpos)
    {
      hide HasBit;
    }

    predicate MayMatch(key: Bytes, filter: Bytes) {
      |filter| >= 2 &&
      (filter[|filter| - 1] > 30 || AllSet(filter[..|filter| - 1], hash(key), filter[|filter| - 1] as nat))
    }

    /** No false negatives. */
    lemma FilterMatchesItsKeys(keys: seq<Bytes>, filter: Bytes, key: Bytes)
      requires |filter| >= 2 && filter[|filter| - 1] as nat == k
      requires IsFilter(keys, filter[..|filter| - 1]) && key in keys
      ensures MayMatch(key, filter)
    {
      var bits := filter[..|filter| - 1];
      var i :| 0 <= i < |keys| && keys[i] == key;
      forall j | 0 <= j < k ensures BitAt(bits, ProbeHash(hash(key), j) % (|bits| * 8)) {
        assert Hashes(keys)[i] == hash(key);
        assert Probed(Hashes(keys), k, |bits| * 8, ProbeHash(hash(key), j) % (|bits| * 8));
      }
    }
  }

  ghost predicate HitBefore(h: Hash32, j: nat, size: nat, pos: nat)
    requires size > 0
  {
    exists i :: 0 <= i < j && ProbeHash(h, i) % size == pos
  }

  /** Exactly the probed bits are set. */
  ghost predicate Marked(bits: Bytes, hashes: seq<Hash32>, k: nat)
    requires bits != []
  {
    forall pos: nat :: BitAt(bits, pos) <==> Probed(hashes, k, |bits| * 8, pos)
  }

  lemma NothingMarked(bits: Bytes, k: nat)
    requires bits != [] && forall i :: 0 <= i < |bits| ==> bits[i] == 0
    ensures Marked(bits, [], k)
  {
    forall pos: nat ensures !BitAt(bits, pos) {
      ZeroHasNoBit(pos % 8);
    }
  }

  lemma {:induction false} ZeroHasNoBit(i: nat)
    ensures !BitOf(0, i)
  {
    if i > 0 {
      ZeroHasNoBit(i - 1);
    }
  }

  lemma BitJoins(before: Bytes, after: Bytes, bitpos: nat)
    requires bitpos / 8 < |before| && after == before[bitpos / 8 := WithBit(before[bitpos / 8], bitpos % 8)]
    ensures forall pos: nat :: BitAt(after, pos) <==> BitAt(before, pos) || pos == bitpos
  {
    forall pos: nat ensures BitAt(after, pos) <==> BitAt(before, pos) || pos == bitpos {
      if pos / 8 == bitpos / 8 {
        BitsOfWithBit(before[bitpos / 8], bitpos % 8, pos % 8);
      }
    }
  }

  lemma MarksJoin(was: Bytes, now: Bytes, hashes: seq<Hash32>, h: Hash32, k: nat)
    requires was != [] && |was| == |now| && Marked(was, hashes, k)
    requires forall pos: nat :: BitAt(now, pos) <==> BitAt(was, pos) || HitBefore(h, k, |was| * 8, pos)
    ensures Marked(now, hashes + [h], k)
  {
    var more, size := hashes + [h], |was| * 8;
    forall pos: nat ensures BitAt(now, pos) <==> Probed(more, k, size, pos) {
      if Probed(hashes, k, size, pos) {
        var i, j :| 0 <= i < |hashes| && 0 <= j < k && ProbeHash(hashes[i], j) % size == pos;
        assert more[i] == hashes[i];
      }
      if HitBefore(h, k, size, pos) {
        var j :| 0 <= j < k && ProbeHash(h, j) % size == pos;
        assert more[|hashes|] == h;
      }
      if Probed(more, k, size, pos) {
        var i, j :| 0 <= i < |more| && 0 <= j < k && ProbeHash(more[i], j) % size == pos;
        if i < |hashes| {
          assert hashes[i] == more[i];
        }
      }
    }
  }
}
