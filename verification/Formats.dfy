/** The file and wire formats byte by byte, on small examples: what the encoders proved
    elsewhere to be undone by their decoders really write. */
module Formats {
  import opened DbFormat
  import opened Coding
  import Crc32c
  import WriteBatches
  import EditCodec
  import LogFormat
  import opened BlockFormat
  import Comparators
  import BloomFilters
  import FilterBlocks
  import TableFiles
  import TableFooters
  import Pb = PbMessages
  import PbDecoders
  import PbRoundTrip
  import Wrappers

  // ---------- numbers ----------

  /** Fixed-width numbers have their lowest byte first, seven bits go to a byte of a varint. */
  lemma NumberBytes()
    ensures EncodeFixed32(0x0403_0201) == [1, 2, 3, 4]
    ensures EncodeFixed64(0x0807_0605_0403_0201) == [1, 2, 3, 4, 5, 6, 7, 8]
    ensures Varint(1) == [1] && Varint(127) == [0x7F] && Varint(128) == [0x80, 1] && Varint(300) == [0xAC, 2]
    ensures LengthPrefixed([7, 8, 9]) == [3, 7, 8, 9]
  {
    assert Varint(2) == [2];
    assert Varint(300) == [(300 % 128 + 128) as Byte] + Varint(2);
    assert Varint(128) == [(128 % 128 + 128) as Byte] + Varint(1);
  }

  // ---------- write batches (db/write_batch.cc) ----------

  /** Put "k" -> "v" and delete "d", from number 5 on. */
  lemma BatchBytes()
    ensures WriteBatches.Contents(5, [WriteBatches.Put([0x6B], [0x76]), WriteBatches.Delete([0x64])]) ==
      [5, 0, 0, 0, 0, 0, 0, 0, 2, 0, 0, 0, 1, 1, 0x6B, 1, 0x76, 0, 1, 0x64]
  {
    var put, del := WriteBatches.Put([0x6B], [0x76]), WriteBatches.Delete([0x64]);
    assert Varint(1) == [1];
    assert WriteBatches.Record(put) == [1, 1, 0x6B, 1, 0x76] && WriteBatches.Record(del) == [0, 1, 0x64];
    assert [put, del][1..] == [del] && [del][1..] == [];
    WriteBatches.BodyOne(put);
    WriteBatches.BodyOne(del);
    WriteBatches.BodyConcat([put], [del]);
    assert [put] + [del] == [put, del];
    assert EncodeFixed64(5) == [5, 0, 0, 0, 0, 0, 0, 0] && EncodeFixed32(2) == [2, 0, 0, 0];
  }

  // ---------- version edits (db/version_edit.cc) ----------

  lemma EditBytes()
    ensures EditCodec.FieldBytes(EditCodec.Comparator([0x63])) == [1, 1, 0x63]
    ensures EditCodec.FieldBytes(EditCodec.LogNumber(8)) == [2, 8]
    ensures EditCodec.FieldBytes(EditCodec.NextFile(9)) == [3, 9]
    ensures EditCodec.FieldBytes(EditCodec.LastSequence(10)) == [4, 10]
    ensures EditCodec.FieldBytes(EditCodec.CompactPointer(2, [0x6B])) == [5, 2, 1, 0x6B]
    ensures EditCodec.FieldBytes(EditCodec.DeletedFile(2, 11)) == [6, 2, 11]
    ensures EditCodec.FieldBytes(EditCodec.NewFile(3, EditCodec.FileMeta(12, 13, [0x61], [0x62]))) ==
      [7, 3, 12, 13, 1, 0x61, 1, 0x62]
    ensures EditCodec.FieldBytes(EditCodec.PrevLogNumber(14)) == [9, 14]
  {
    assert forall n: nat :: n < 128 ==> Varint(n) == [n as Byte];
  }

  // ---------- logs (db/log_writer.cc) ----------

  /** The record "a": masked checksum of type and data, length, type, data. */
  lemma LogBytes()
    ensures LogFormat.Fragments([0x61], 0, true) == [LogFormat.Fragment(1, [0x61])]
    ensures LogFormat.Frame(LogFormat.Fragment(1, [0x61])) == [0xB5, 0xCD, 0x0B, 0xA2, 1, 0, 1, 0x61]
  {
    LogChecksum();
    hide Crc32c.Stored, Crc32c.Value;
    var data: Bytes := [0x61];
    assert data[..1] == data;
    var f := LogFormat.Fragment(1, data);
    assert [f.kind as Byte] + f.payload == [1, 0x61];
    assert LogFormat.Header(f) == [0xB5, 0xCD, 0x0B, 0xA2] + [1, 0, 1];
  }

  lemma LogChecksum()
    ensures Crc32c.Stored(Crc32c.Value([1, 0x61])) == [0xB5, 0xCD, 0x0B, 0xA2]
  {
    assert Crc32c.Bits([1, 0x61]) == [1, 0x61];
    TwoBytes(1, 0x61);
    LogSteps();
    hide Crc32c.StepByte, Crc32c.Fold, Crc32c.Extend;
    assert Crc32c.Mask(0x716E_FFC4) == 0xA20B_CDB5;
    assert EncodeFixed32(0xA20B_CDB5) == [0xB5, 0xCD, 0x0B, 0xA2];
  }

  lemma TwoBytes(a: bv8, b: bv8)
    ensures Crc32c.Extend(0, [a, b]) == Crc32c.Invert(Crc32c.StepByte(Crc32c.StepByte(0xFFFF_FFFF, a), b))
  {
    hide Crc32c.StepByte;
    assert [a, b][..1] == [a] && [a][..0] == [];
    assert Crc32c.Fold(0xFFFF_FFFF, []) == 0xFFFF_FFFF;
    assert Crc32c.Fold(0xFFFF_FFFF, [a]) == Crc32c.StepByte(0xFFFF_FFFF, a);
  }

  lemma LogSteps()
    ensures Crc32c.StepByte(0xFFFF_FFFF, 1) == 0x5FE9_2FAD && Crc32c.StepByte(0x5FE9_2FAD, 0x61) == 0x8E91_003B
  {
  }

  /** Three records of 1000, 97270 and 8000 bytes: the second one fills up the first block,
      takes the second and most of the third, where the six bytes that are left are too few
      for a header. */
  lemma LogBlocks(a: Bytes, b: Bytes, c: Bytes)
    requires |a| == 1000 && |b| == 97270 && |c| == 8000
    ensures LogFormat.LogFragments([a, b, c], 0) == [
      LogFormat.Fragment(1, a),
      LogFormat.Fragment(2, b[..31754]), LogFormat.Fragment(3, b[31754..64515]), LogFormat.Fragment(4, b[64515..]),
      LogFormat.Fragment(1, c)]
    ensures LogFormat.Padding(32762) == [0, 0, 0, 0, 0, 0]
  {
    var fa, fb, fc := LogFormat.Fragments(a, 0, true), LogFormat.Fragments(b, 1007, true), LogFormat.Fragments(c, 32762, true);
    WholeRecords(a, c);
    SplitRecord(b);
    LogFragmentsFirst([a, b, c], 0);
    LogFragmentsFirst([b, c], 1007);
    LogFragmentsFirst([c], 32762);
    hide LogFormat.Fragments, LogFormat.LogFragments;
    assert [a, b, c][1..] == [b, c] && [b, c][1..] == [c] && [c][1..] == [];
    assert LogFormat.End(fa, 0) == 1007;
    assert LogFormat.After(1007, fb[0]) == 32768 && LogFormat.After(32768, fb[1]) == 32768;
    assert LogFormat.After(32768, fb[2]) == 32762 && fb[1..][1..][1..] == [];
    assert LogFormat.End(fb[1..][1..], 32768) == 32762;
    assert LogFormat.End(fb[1..], 32768) == 32762;
    assert LogFormat.End(fb, 1007) == 32762;
    assert LogFormat.LogFragments([], LogFormat.End(fc, 32762)) == [] by {
      NoRecords(LogFormat.End(fc, 32762));
    }
  }

  lemma NoRecords(o: nat)
    requires o <= LogFormat.BLOCK_SIZE
    ensures LogFormat.LogFragments([], o) == []
  {
  }

  lemma LogFragmentsFirst(records: seq<Bytes>, o: nat)
    requires o <= LogFormat.BLOCK_SIZE && records != []
    ensures var fs := LogFormat.Fragments(records[0], o, true);
      LogFormat.End(fs, o) <= LogFormat.BLOCK_SIZE &&
      LogFormat.LogFragments(records, o) == fs + LogFormat.LogFragments(records[1..], LogFormat.End(fs, o))
  {
    LogFormat.FragmentsFit(records[0], o, true);
    LogFormat.EndInBlock(LogFormat.Fragments(records[0], o, true), o);
  }

  lemma WholeRecords(a: Bytes, c: Bytes)
    requires |a| == 1000 && |c| == 8000
    ensures LogFormat.Fragments(a, 0, true) == [LogFormat.Fragment(1, a)]
    ensures LogFormat.Fragments(c, 32762, true) == [LogFormat.Fragment(1, c)]
  {
    assert a[..1000] == a && c[..8000] == c;
  }

  lemma SplitRecord(b: Bytes)
    requires |b| == 97270
    ensures LogFormat.Fragments(b, 1007, true) ==
      [LogFormat.Fragment(2, b[..31754]), LogFormat.Fragment(3, b[31754..64515]), LogFormat.Fragment(4, b[64515..])]
  {
    var rest, last := b[31754..], b[64515..];
    assert rest[..32761] == b[31754..64515] && rest[32761..] == last && last[..32755] == last;
    assert LogFormat.Fragments(last, 32768, false) == [LogFormat.Fragment(4, last)];
    assert LogFormat.Fragments(rest, 32768, false) == [LogFormat.Fragment(3, b[31754..64515]), LogFormat.Fragment(4, last)];
  }

  // ---------- tables (table/block_builder.cc, table/table_builder.cc) ----------

  /** The entries "a" -> "1" and "ab" -> "2": the second key shares one byte with the first;
      one restart point at offset 0 follows, and the number of restart points. */
  lemma BlockBytes()
    ensures EncodeEntry(0, KeyValue([0x61], [0x31])) == [0, 1, 1, 0x61, 0x31]
    ensures EncodeEntry(1, KeyValue([0x61, 0x62], [0x32])) == [1, 1, 1, 0x62, 0x32]
    ensures Common([0x61], [0x61, 0x62]) == 1
    ensures Words([0, 1]) == [0, 0, 0, 0, 1, 0, 0, 0]
  {
    var one: Bytes, two: Bytes := [0x61], [0x61, 0x62];
    assert one[0..] == one && two[1..] == [0x62];
    CommonIs(one, two, 1);
    assert [0, 1][..1] == [0] && [0][..0] == [];
    assert Words([0]) == [] + Word(0);
  }

  /** Block type, masked checksum; a handle is two varints. */
  lemma TableBytes()
    ensures TableFiles.Trailer([0x61]) == [0, 0x97, 0xAF, 0xC9, 0x37]
    ensures TableFooters.EncodeHandle(TableFooters.BlockHandle(300, 5)) == [0xAC, 2, 5]
  {
    TableChecksum();
    hide Crc32c.Stored, Crc32c.Value;
    var contents: Bytes := [0x61];
    assert contents + [TableFiles.NO_COMPRESSION] == [0x61, 0];
    NumberBytes();
    assert Varint(5) == [5];
  }

  lemma TableChecksum()
    ensures Crc32c.Stored(Crc32c.Value([0x61, 0])) == [0x97, 0xAF, 0xC9, 0x37]
  {
    assert Crc32c.Bits([0x61, 0]) == [0x61, 0];
    TwoBytes(0x61, 0);
    TableSteps();
    hide Crc32c.StepByte, Crc32c.Fold, Crc32c.Extend;
    assert Crc32c.Mask(0x625F_CAA3) == 0x37C9_AF97;
    assert EncodeFixed32(0x37C9_AF97) == [0x97, 0xAF, 0xC9, 0x37];
  }

  lemma TableSteps()
    ensures Crc32c.StepByte(0xFFFF_FFFF, 0x61) == 0x3E2F_BCCF && Crc32c.StepByte(0x3E2F_BCCF, 0) == 0x9DA0_355C
  {
  }

  /** The user key "k" at number 5, as a value: the packed word follows. */
  lemma KeyBytes()
    ensures Comparators.InternalBytes([0x6B], Tag(InternalKey(0.0, 5, Value))) == [0x6B, 1, 5, 0, 0, 0, 0, 0, 0]
    ensures Comparators.InternalBytes([0x6B], Tag(InternalKey(0.0, 5, Deletion))) == [0x6B, 0, 5, 0, 0, 0, 0, 0, 0]
  {
    assert EncodeFixed64(5 * 256 + 1) == [1, 5, 0, 0, 0, 0, 0, 0];
    assert EncodeFixed64(5 * 256) == [0, 5, 0, 0, 0, 0, 0, 0];
  }

  /** The probes of a Bloom filter step by the hash, rotated right by 17 bits. */
  lemma ProbeBits(low: nat, high: nat)
    requires low < 0x2_0000 && high < 0x8000
    ensures BloomFilters.Rotated(high * 0x2_0000 + low) == low * 0x8000 + high
    ensures BloomFilters.HasBit(4, 2) && !BloomFilters.HasBit(4, 1) && BloomFilters.WithBit(1, 3) == 9
    ensures FilterBlocks.FILTER_BASE == 2048 == BloomFilters.PowerOfTwo(FilterBlocks.FILTER_BASE_LG)
  {
    assert BloomFilters.PowerOfTwo(4) == 16;
    assert BloomFilters.PowerOfTwo(8) == 256;
    assert !BloomFilters.HasBit(1, 3) && BloomFilters.PowerOfTwo(3) == 8;
  }

  // ---------- nanopb (pb_encode.c) ----------

  lemma SmallVarints(n: nat)
    requires n < 128
    ensures Varint(n) == [n as Byte] && Varint(n + 128) == [(n + 128) as Byte, 1]
  {
    assert (n + 128) / 128 == 1 && (n + 128) % 128 == n;
    assert Varint(1) == [1];
  }

  /** A field that is written once: tag and value. */
  lemma SingleField(f: Pb.Field, v: Pb.Value)
    requires f.htype == Pb.Required && Pb.Typed(f.ltype, v)
    ensures Pb.SlotTyped(f, [v]) && Pb.FieldBytes(f, [v]) == Varint(f.tag * 8 + Pb.WireOf(f.ltype)) + Pb.ValueBytes(f.ltype, v)
  {
    hide Pb.Typed, Pb.ValueBytes, Varint;
    assert Pb.UnpackedBytes(f, [v], 1) == [];
    assert Pb.UnpackedBytes(f, [v], 0) == Pb.TagBytes(f.tag, Pb.WireOf(f.ltype)) + (Pb.ValueBytes(f.ltype, v) + []);
    assert Pb.ValueBytes(f.ltype, v) + [] == Pb.ValueBytes(f.ltype, v);
  }

  /** A required number 150 with tag 1, a number -1 in zigzag form with tag 3. */
  lemma NumberFields()
    ensures Pb.FieldBytes(Pb.Field(1, Pb.Required, Pb.Int(4)), [Pb.Num(150)]) == [0x08, 0x96, 0x01]
    ensures Pb.FieldBytes(Pb.Field(3, Pb.Required, Pb.Zigzag(4)), [Pb.Num(-1)]) == [0x18, 1]
  {
    SingleField(Pb.Field(1, Pb.Required, Pb.Int(4)), Pb.Num(150));
    SingleField(Pb.Field(3, Pb.Required, Pb.Zigzag(4)), Pb.Num(-1));
    hide Pb.FieldBytes;
    SmallVarints(8);
    SmallVarints(22);
    SmallVarints(24);
    SmallVarints(1);
    hide Varint;
    assert Pb.ValueBytes(Pb.Int(4), Pb.Num(150)) == Varint(150);
    assert Pb.ValueBytes(Pb.Zigzag(4), Pb.Num(-1)) == Varint(1);
  }

  /** A fixed 1 with tag 1, in four and in eight bytes. */
  lemma FixedFields()
    ensures Pb.FieldBytes(Pb.Field(1, Pb.Required, Pb.Fixed32), [Pb.Num(1)]) == [0x0D, 1, 0, 0, 0]
    ensures Pb.FieldBytes(Pb.Field(1, Pb.Required, Pb.Fixed64), [Pb.Num(1)]) == [0x09, 1, 0, 0, 0, 0, 0, 0, 0]
  {
    SingleField(Pb.Field(1, Pb.Required, Pb.Fixed32), Pb.Num(1));
    SingleField(Pb.Field(1, Pb.Required, Pb.Fixed64), Pb.Num(1));
    hide Pb.FieldBytes;
    SmallVarints(13);
    SmallVarints(9);
    hide Varint;
    assert EncodeFixed32(1) == [1, 0, 0, 0] && EncodeFixed64(1) == [1, 0, 0, 0, 0, 0, 0, 0];
  }

  /** The string "hi" with tag 2. */
  lemma StringField()
    ensures Pb.FieldBytes(Pb.Field(2, Pb.Required, Pb.StringOf(8)), [Pb.Raw([0x68, 0x69])]) == [0x12, 2, 0x68, 0x69]
  {
    SingleField(Pb.Field(2, Pb.Required, Pb.StringOf(8)), Pb.Raw([0x68, 0x69]));
    hide Pb.FieldBytes;
    SmallVarints(18);
    SmallVarints(2);
    hide Varint;
    assert Pb.ValueBytes(Pb.StringOf(8), Pb.Raw([0x68, 0x69])) == Varint(2) + [0x68, 0x69];
  }

  /** The numbers 3 and 150 with tag 4, packed. */
  lemma PackedField()
    ensures Pb.FieldBytes(Pb.Field(4, Pb.Repeated(9), Pb.Int(4)), [Pb.Num(3), Pb.Num(150)]) == [0x22, 3, 3, 0x96, 0x01]
  {
    SmallVarints(3);
    SmallVarints(22);
    SmallVarints(34);
    hide Varint;
    var f, items := Pb.Field(4, Pb.Repeated(9), Pb.Int(4)), [Pb.Num(3), Pb.Num(150)];
    assert Pb.PackedBytes(f, items, 1) == Varint(150);
    assert Pb.PackedBytes(f, items, 0) == [3, 0x96, 0x01];
  }

  const SAMPLE: seq<Pb.Field> :=
    [Pb.Field(1, Pb.Required, Pb.Int(4)), Pb.Field(3, Pb.Singular, Pb.Uint(4)), Pb.Field(5, Pb.Singular, Pb.Uint(1))]

  /** A message of a required number 150, a proto3 number 0, which is left out, and a proto3
      number 7: its bytes, and that they read back. */
  lemma SampleMessage()
    ensures var slots := [[Pb.Num(150)], [Pb.Num(0)], [Pb.Num(7)]];
      && Pb.AllTyped(SAMPLE, slots)
      && Pb.MessageBytes(SAMPLE, slots, 0) == [0x08, 0x96, 0x01, 0x28, 7]
      && PbDecoders.DecodeMessage(SAMPLE, [0x08, 0x96, 0x01, 0x28, 7], PbDecoders.Defaults(SAMPLE)) == Wrappers.Some(slots)
  {
    var slots := [[Pb.Num(150)], [Pb.Num(0)], [Pb.Num(7)]];
    SampleIsSane(slots);
    SampleBytes(slots);
    PbRoundTrip.MessageReadsBack(SAMPLE, slots);
    hide Pb.MessageBytes, PbDecoders.DecodeMessage;
  }

  lemma SampleIsSane(slots: seq<seq<Pb.Value>>)
    requires slots == [[Pb.Num(150)], [Pb.Num(0)], [Pb.Num(7)]]
    ensures Pb.AllTyped(SAMPLE, slots) && PbRoundTrip.SaneMessage(SAMPLE, slots)
    ensures PbRoundTrip.AllClosed(SAMPLE, slots, 0)
  {
    NumberIsSane(SAMPLE[0], 150);
    NumberIsSane(SAMPLE[1], 0);
    NumberIsSane(SAMPLE[2], 7);
    hide Pb.SlotTyped, PbRoundTrip.SlotSane, PbRoundTrip.SlotClosed;
    assert PbRoundTrip.AllSane(SAMPLE, slots, 3) && PbRoundTrip.AllClosed(SAMPLE, slots, 3);
    assert PbRoundTrip.AllSane(SAMPLE, slots, 2) && PbRoundTrip.AllClosed(SAMPLE, slots, 2);
    assert PbRoundTrip.AllSane(SAMPLE, slots, 1) && PbRoundTrip.AllClosed(SAMPLE, slots, 1);
  }

  lemma NumberIsSane(f: Pb.Field, n: int)
    requires f in SAMPLE && 0 <= n && if f.ltype.Int? then n < 0x8000_0000 else n < 256
    ensures Pb.SlotTyped(f, [Pb.Num(n)]) && PbRoundTrip.SlotSane(f, [Pb.Num(n)])
    ensures PbRoundTrip.SlotClosed(f, [Pb.Num(n)])
  {
    assert PbRoundTrip.ItemsSane(f, [Pb.Num(n)], 1) && PbRoundTrip.ItemsClosed(f, [Pb.Num(n)], 1);
  }

  lemma SampleBytes(slots: seq<seq<Pb.Value>>)
    requires slots == [[Pb.Num(150)], [Pb.Num(0)], [Pb.Num(7)]] && Pb.AllTyped(SAMPLE, slots)
    ensures Pb.MessageBytes(SAMPLE, slots, 0) == [0x08, 0x96, 0x01, 0x28, 7]
  {
    NumberFields();
    SmallVarints(40);
    SmallVarints(7);
    hide Varint;
    assert Pb.MessageBytes(SAMPLE, slots, 3) == [];
    assert Pb.UnpackedBytes(SAMPLE[2], slots[2], 1) == [];
    assert Pb.FieldBytes(SAMPLE[2], slots[2]) == [0x28, 7];
    assert Pb.MessageBytes(SAMPLE, slots, 2) == [0x28, 7];
    assert Pb.FieldBytes(SAMPLE[1], slots[1]) == [];
    assert Pb.MessageBytes(SAMPLE, slots, 1) == [0x28, 7];
  }
}
