/** Block handles, and the footer at the end of a table file (table/format.cc). */
module TableFooters {
  import opened Wrappers
  import opened DbFormat
  import opened Coding

  /** Where a block lies in the file. */
  datatype BlockHandle = BlockHandle(offset: nat, size: nat)

  function EncodeHandle(h: BlockHandle): Bytes {
    Varint(h.offset) + Varint(h.size)
  }

  datatype TakenHandle = TakenHandle(handle: BlockHandle, rest: Bytes)

  /** BlockHandle::DecodeFrom; more bytes may follow. */
  function TakeHandle(input: Bytes): Option<TakenHandle> {
    var offset := Take64(input);
    if offset.None? then None
    else
      var size := Take64(offset.value.rest);
      if size.None? then None
      else Some(TakenHandle(BlockHandle(offset.value.value, size.value.value), size.value.rest))
  }

  function DecodeHandle(input: Bytes): Option<BlockHandle> {
    var t := TakeHandle(input);
    if t.None? then None else Some(t.value.handle)
  }

  predicate HandleFits(h: BlockHandle) {
    h.offset < TWO_TO_64 && h.size < TWO_TO_64
  }

  lemma HandleBack(h: BlockHandle, rest: Bytes)
    requires HandleFits(h)
    ensures TakeHandle(EncodeHandle(h) + rest) == Some(TakenHandle(h, rest))
  {
    hide Varint, Take64;
    var a, b := Varint(h.offset), Varint(h.size);
    Take64Back(h.offset, b + rest);
    Take64Back(h.size, rest);
    assert a + b + rest == a + (b + rest);
  }

  lemma HandleRoundTrip(h: BlockHandle)
    requires HandleFits(h)
    ensures DecodeHandle(EncodeHandle(h)) == Some(h)
  {
    hide TakeHandle, EncodeHandle;
    HandleBack(h, []);
    assert EncodeHandle(h) + [] == EncodeHandle(h);
  }

  // ---------- the footer ----------

  /** kTableMagicNumber. */
  const MAGIC: nat := 0xDB47_7524_8B80_FB57

  const FOOTER_SIZE: nat := 48
  const HANDLES_SIZE: nat := 40

  function Zeros(n: nat): (z: Bytes)
    ensures |z| == n && forall i :: 0 <= i < n ==> z[i] == 0
  {
    seq(n, _ => 0 as Byte)
  }

  /** std::string::resize: cut off, or filled up with zeros. */
  function Resized(b: Bytes, n: nat): (r: Bytes)
    ensures |r| == n
  {
    if |b| < n then b + Zeros(n - |b|) else b[..n]
  }

  datatype Footer = Footer(metaindex: BlockHandle, index: BlockHandle)

  function EncodeFooter(f: Footer): (b: Bytes)
    ensures |b| == FOOTER_SIZE
  {
    Resized(EncodeHandle(f.metaindex) + EncodeHandle(f.index), HANDLES_SIZE) + EncodeFixed64(MAGIC)
  }

  function DecodeFooter(input: Bytes): Option<Footer>
    requires |input| == FOOTER_SIZE
  {
    if DecodeFixed64(input[HANDLES_SIZE..]) != MAGIC then None
    else
      var metaindex := TakeHandle(input);
      if metaindex.None? then None
      else
        var index := TakeHandle(metaindex.value.rest);
        if index.None? then None else Some(Footer(metaindex.value.handle, index.value.handle))
  }

  lemma HandleLength(h: BlockHandle)
    requires HandleFits(h)
    ensures |EncodeHandle(h)| <= 20
  {
    VarintLength64(h.offset);
    VarintLength64(h.size);
  }

  /** A footer reads back; and what does not end in the magic number is refused. */
  lemma FooterRoundTrip(f: Footer)
    requires HandleFits(f.metaindex) && HandleFits(f.index)
    ensures DecodeFooter(EncodeFooter(f)) == Some(f)
  {
    hide EncodeHandle, TakeHandle, EncodeFixed64, DecodeFixed64;
    var a, b := EncodeHandle(f.metaindex), EncodeHandle(f.index);
    HandleLength(f.metaindex);
    HandleLength(f.index);
    var pad, magic := Zeros(HANDLES_SIZE - |a + b|), EncodeFixed64(MAGIC);
    HandleBack(f.metaindex, b + (pad + magic));
    HandleBack(f.index, pad + magic);
    Fixed64RoundTrip(MAGIC);
    assert EncodeFooter(f)[HANDLES_SIZE..] == magic;
    assert EncodeFooter(f) == a + (b + (pad + magic));
  }

  lemma MagicRefused(input: Bytes)
    requires |input| == FOOTER_SIZE && input[HANDLES_SIZE..] != [0x57, 0xFB, 0x80, 0x8B, 0x24, 0x75, 0x47, 0xDB]
    ensures DecodeFooter(input) == None
  {
    var last := input[HANDLES_SIZE..];
    if DecodeFixed64(last) == MAGIC {
      MagicBytes(last);
    }
  }

  lemma MagicBytes(b: Bytes)
    requires |b| == 8 && DecodeFixed64(b) == MAGIC
    ensures b == [0x57, 0xFB, 0x80, 0x8B, 0x24, 0x75, 0x47, 0xDB]
  {
    var low, high := b[..4], b[4..];
    assert DecodeFixed32(low) == 0x8B80_FB57 && DecodeFixed32(high) == 0xDB47_7524;
    WordBytes(low);
    WordBytes(high);
  }

  /** The bytes of a word are its digits. */
  lemma WordBytes(b: Bytes)
    requires |b| == 4
    ensures var v := DecodeFixed32(b);
      && b[0] as int == v % 0x100 && b[1] as int == v / 0x100 % 0x100
      && b[2] as int == v / 0x1_0000 % 0x100 && b[3] as int == v / 0x100_0000
  {
    var v := DecodeFixed32(b);
    var v2 := b[2] as nat + 0x100 * b[3] as nat;
    var v1 := b[1] as nat + 0x100 * v2;
    Digit(b[0], v1);
    Digit(b[1], v2);
    Digit(b[2], b[3] as nat);
    assert v == b[0] as nat + 0x100 * v1;
    assert v / 0x1_0000 == v1 / 0x100 && v / 0x100_0000 == v2 / 0x100;
  }

  lemma Digit(low: Byte, high: nat)
    ensures var v := low as nat + 0x100 * high; v % 0x100 == low as nat && v / 0x100 == high
  {
  }
}
