/** Building a table file and looking a key up in it (table/table_builder.cc, table/table.cc,
    table/format.cc), for encoded internal keys and without compression. */
module TableFiles {
  import opened Wrappers
  import opened DbFormat
  import opened Coding
  import opened BlockFormat
  import opened Comparators
  import opened TableRows
  import opened BloomFilters
  import opened FilterBlocks
  import opened TableFooters
  import Crc32c

  const TRAILER_SIZE: nat := 5
  const NO_COMPRESSION: Byte := 0

  /** The type of the block and the masked checksum of both. */
  function Trailer(contents: Bytes): (t: Bytes)
    ensures |t| == TRAILER_SIZE
  {
    [NO_COMPRESSION] + Crc32c.Stored(Crc32c.Value(contents + [NO_COMPRESSION]))
  }

  /** ReadBlock with checksums verified. */
  function ReadBlock(file: Bytes, h: BlockHandle): Option<Bytes> {
    if h.offset + h.size + TRAILER_SIZE > |file| then None
    else
      var data := file[h.offset..h.offset + h.size + TRAILER_SIZE];
      var n := h.size;
      if Crc32c.Loaded(data[n + 1..n + 5]) != Crc32c.Value(data[..n + 1]) || data[n] != NO_COMPRESSION then None
      else Some(data[..n])
  }

  /** The block with its trailer lies at the handle. */
  predicate RawAt(file: Bytes, h: BlockHandle, contents: Bytes) {
    && h.size == |contents| && h.offset + h.size + TRAILER_SIZE <= |file|
    && file[h.offset..h.offset + h.size + TRAILER_SIZE] == contents + Trailer(contents)
  }

  lemma ReadsBack(file: Bytes, h: BlockHandle, contents: Bytes)
    requires RawAt(file, h, contents)
    ensures ReadBlock(file, h) == Some(contents)
  {
    var crc := Crc32c.Value(contents + [NO_COMPRESSION]);
    Crc32c.LoadedStored(crc);
    hide Crc32c.Value, Crc32c.Loaded, Crc32c.Stored;
    var n := |contents|;
    var data := contents + Trailer(contents);
    assert data[n + 1..n + 5] == Crc32c.Stored(crc);
    assert data[..n + 1] == contents + [NO_COMPRESSION];
    assert data[..n] == contents;
  }

  /** A block in the file, with what BlockBuilder knew of it. */
  datatype Stored = Stored(handle: BlockHandle, buffer: Bytes, restarts: seq<nat>, counter: nat, lastKey: Bytes,
                           layout: Layout, interval: nat)

  /** The key under which the metaindex block has the filters of the built-in policy. */
  function FilterKey(): Bytes {
    Ascii("filter.leveldb.BuiltinBloomFilter2")
  }

  function Ascii(s: string): Bytes {
    seq(|s|, i requires 0 <= i < |s| => (s[i] as int % 128) as Byte)
  }

  function ContentsOf(s: Stored): Bytes {
    s.buffer + Words(s.restarts + [|s.restarts|])
  }

  /** The size estimate of the block. */
  function SizeOf(s: Stored): nat {
    |s.buffer| + 4 * |s.restarts| + 4
  }

  ghost predicate StoredAt(file: Bytes, s: Stored) {
    && s.interval >= 1
    && Built(s.buffer, s.restarts, s.counter, s.lastKey, s.layout, s.interval)
    && (forall i :: 0 <= i < |s.layout.entries| ==> |s.layout.entries[i].key| < TWO_TO_32)
    && RawAt(file, s.handle, ContentsOf(s))
  }

  ghost predicate AllStored(file: Bytes, blocks: seq<Stored>) {
    forall b :: 0 <= b < |blocks| ==> StoredAt(file, blocks[b])
  }

  lemma StoredStays(file: Bytes, more: Bytes, blocks: seq<Stored>)
    requires AllStored(file, blocks)
    ensures AllStored(file + more, blocks)
  {
    hide Built, ContentsOf, RawAt;
    forall b | 0 <= b < |blocks| ensures StoredAt(file + more, blocks[b]) {
      assert StoredAt(file, blocks[b]);
      RawStays(file, more, blocks[b].handle, ContentsOf(blocks[b]));
    }
  }

  lemma RawStays(file: Bytes, more: Bytes, h: BlockHandle, contents: Bytes)
    requires RawAt(file, h, contents)
    ensures RawAt(file + more, h, contents)
  {
    hide Trailer;
    var end := h.offset + h.size + TRAILER_SIZE;
    assert (file + more)[h.offset..end] == file[h.offset..end];
  }

  /** The entries of the blocks, block by block. */
  function EntriesOf(blocks: seq<Stored>): (r: seq<seq<KeyValue>>)
    ensures |r| == |blocks| && forall b :: 0 <= b < |blocks| ==> r[b] == blocks[b].layout.entries
  {
    seq(|blocks|, b requires 0 <= b < |blocks| => blocks[b].layout.entries)
  }

  /** All rows: the written blocks, then the one in the making if it has any entry. */
  function Rows(blocks: seq<Stored>, current: seq<KeyValue>): seq<seq<KeyValue>> {
    EntriesOf(blocks) + (if current == [] then [] else [current])
  }

  ghost predicate HandlesOk(seps: seq<KeyValue>, blocks: seq<Stored>) {
    |seps| <= |blocks| && forall b :: 0 <= b < |seps| ==> seps[b].value == EncodeHandle(blocks[b].handle)
  }

  /** What the builder has taken in: the rows hold it all, in order; each row but the last
      few has its separator in the index, with the handle of its block. */
  ghost predicate Content(blocks: seq<Stored>, current: seq<KeyValue>, seps: seq<KeyValue>, entries: seq<KeyValue>,
                          pending: bool, lastKey: Bytes)
  {
    && Flat(Rows(blocks, current)) == entries && Ascending(entries)
    && Indexed(Rows(blocks, current), seps) && HandlesOk(seps, blocks)
    && |seps| + (if pending then 1 else 0) == |blocks|
    && (pending ==> current == []) && (current == [] && !pending ==> blocks == [])
    && (entries != [] ==> lastKey == LastKey(entries))
  }

  /** A key that closes off the last row: its own last key, or one with a user key beyond. */
  predicate Closes(sep: Bytes, lastKey: Bytes) {
    sep == lastKey || LexLess(UserPart(lastKey), UserPart(sep))
  }

  predicate Opens(sep: Bytes, lastKey: Bytes, next: Bytes) {
    sep == lastKey || LexLess(UserPart(sep), UserPart(next))
  }

  lemma AscendingGrows(entries: seq<KeyValue>, e: KeyValue)
    requires Ascending(entries) && IsInternal(e.key) && (entries != [] ==> InternalLess(LastKey(entries), e.key))
    ensures Ascending(entries + [e])
  {
    hide InternalLess;
    var es := entries + [e];
    forall i, j | 0 <= i < j < |es| ensures InternalLess(es[i].key, es[j].key) {
      if j == |entries| && i < j - 1 {
        InternalOrder(es[i].key, LastKey(entries), e.key);
      }
    }
  }

  lemma FlatGrows(rows: seq<seq<KeyValue>>, row: seq<KeyValue>)
    ensures Flat(rows + [row]) == Flat(rows) + row
  {
    assert (rows + [row])[..|rows|] == rows;
  }

  /** The first entry of a new row, with the separator for the row before. */
  lemma RowOpened(blocks: seq<Stored>, seps: seq<KeyValue>, entries: seq<KeyValue>, lastKey: Bytes, sep: KeyValue,
                  e: KeyValue)
    requires Content(blocks, [], seps, entries, true, lastKey)
    requires IsInternal(e.key) && InternalLess(lastKey, e.key)
    requires Closes(sep.key, lastKey) && Opens(sep.key, lastKey, e.key) && sep.key == SeparatorOf(lastKey, e.key)
    requires sep.value == EncodeHandle(blocks[|blocks| - 1].handle)
    ensures Content(blocks, [e], seps + [sep], entries + [e], false, e.key)
  {
    hide InternalLess, IsInternal, UserPart, LexLess, EncodeHandle, SeparatorOf, SuccessorOf;
    var rows := EntriesOf(blocks);
    var n := |blocks| - 1;
    assert Rows(blocks, []) == rows && Rows(blocks, [e]) == rows + [[e]];
    LastOfFlat(rows);
    AscendingGrows(entries, e);
    FlatGrows(rows, [e]);
    var more, keys := rows + [[e]], seps + [sep];
    forall b | 0 <= b < |keys| ensures Separates(more, b, keys[b].key) {
      if b < |seps| {
        assert Separates(rows, b, seps[b].key);
      }
    }
  }

  lemma LastOfFlat(rows: seq<seq<KeyValue>>)
    requires rows != [] && rows[|rows| - 1] != []
    ensures Flat(rows) != [] && LastKey(Flat(rows)) == LastKey(rows[|rows| - 1])
  {
  }

  /** The very first entry. */
  lemma TableOpened(blocks: seq<Stored>, seps: seq<KeyValue>, entries: seq<KeyValue>, lastKey: Bytes, e: KeyValue)
    requires Content(blocks, [], seps, entries, false, lastKey) && IsInternal(e.key)
    ensures entries == [] && Content(blocks, [e], seps, [e], false, e.key)
  {
    hide InternalLess, IsInternal, UserPart, LexLess, EncodeHandle, SeparatorOf, SuccessorOf;
    assert blocks == [] && seps == [];
    assert Rows(blocks, []) == [] && Rows(blocks, [e]) == [[e]];
    OneRow([e]);
  }

  lemma OneRow(row: seq<KeyValue>)
    ensures Flat([row]) == row
  {
    assert [row][..0] == [];
  }

  /** One more entry of the current row. */
  lemma RowGrows(blocks: seq<Stored>, current: seq<KeyValue>, seps: seq<KeyValue>, entries: seq<KeyValue>,
                 lastKey: Bytes, e: KeyValue)
    requires Content(blocks, current, seps, entries, false, lastKey) && current != []
    requires IsInternal(e.key) && InternalLess(lastKey, e.key)
    ensures Content(blocks, current + [e], seps, entries + [e], false, e.key)
  {
    hide InternalLess, IsInternal, UserPart, LexLess, EncodeHandle, SeparatorOf, SuccessorOf;
    var rows := EntriesOf(blocks);
    FlatGrows(rows, current);
    FlatGrows(rows, current + [e]);
    AscendingGrows(entries, e);
    var was, more := rows + [current], rows + [current + [e]];
    assert Flat(more) == entries + [e];
    forall b | 0 <= b < |seps| ensures Separates(more, b, seps[b].key) {
      assert Separates(was, b, seps[b].key);
    }
  }

  /** The current row becomes a block. */
  lemma RowWritten(blocks: seq<Stored>, current: seq<KeyValue>, seps: seq<KeyValue>, entries: seq<KeyValue>,
                   lastKey: Bytes, s: Stored)
    requires Content(blocks, current, seps, entries, false, lastKey) && current != [] && s.layout.entries == current
    ensures Content(blocks + [s], [], seps, entries, true, lastKey)
  {
    hide InternalLess, IsInternal, UserPart, LexLess, EncodeHandle, SeparatorOf, SuccessorOf, Flat;
    assert Rows(blocks + [s], []) == Rows(blocks, current);
  }

  /** The separator after the last row. */
  lemma IndexClosed(blocks: seq<Stored>, seps: seq<KeyValue>, entries: seq<KeyValue>, lastKey: Bytes, sep: KeyValue)
    requires Content(blocks, [], seps, entries, true, lastKey)
    requires Closes(sep.key, lastKey) && sep.key == SuccessorOf(lastKey) && sep.value == EncodeHandle(blocks[|blocks| - 1].handle)
    ensures TableContent(blocks, seps + [sep], entries)
  {
    hide InternalLess, IsInternal, UserPart, LexLess, EncodeHandle, SeparatorOf, SuccessorOf;
    var rows := EntriesOf(blocks);
    assert Rows(blocks, []) == rows;
    LastOfFlat(rows);
    var keys := seps + [sep];
    forall b | 0 <= b < |keys| ensures Separates(rows, b, keys[b].key) {
      if b < |seps| {
        assert Separates(rows, b, seps[b].key);
      }
    }
  }

  /** A finished table: every block has its separator. */
  ghost predicate TableContent(blocks: seq<Stored>, seps: seq<KeyValue>, entries: seq<KeyValue>) {
    && Flat(EntriesOf(blocks)) == entries && Ascending(entries)
    && Indexed(EntriesOf(blocks), seps) && HandlesOk(seps, blocks) && |seps| == |blocks|
  }

  lemma EmptyTable(blocks: seq<Stored>, seps: seq<KeyValue>, entries: seq<KeyValue>, lastKey: Bytes)
    requires Content(blocks, [], seps, entries, false, lastKey)
    ensures TableContent(blocks, seps, entries)
  {
    assert Rows(blocks, []) == EntriesOf(blocks);
  }

  // ----- building

  /** The filter for the stretch that a block starts in knows every key of the block. */
  ghost predicate Known(fb: FilterBlockBuilder, offset: nat, entries: seq<KeyValue>)
    reads fb
  {
    KnownIn(fb.KeysAt(offset / FILTER_BASE), entries)
  }

  ghost predicate AllKnown(fb: FilterBlockBuilder, blocks: seq<Stored>)
    reads fb
  {
    forall b :: 0 <= b < |blocks| ==> Known(fb, blocks[b].handle.offset, blocks[b].layout.entries)
  }

  class TableBuilder {
    const blockSize: nat
    const dataBlock: BlockBuilder
    const indexBlock: BlockBuilder
    const filterBlock: FilterBlockBuilder?
    var file: Bytes
    var lastKey: Bytes
    var numEntries: nat
    var closed: bool
    var pendingIndexEntry: bool
    var pendingHandle: BlockHandle
    ghost var blocks: seq<Stored>
    ghost var entries: seq<KeyValue>

    ghost predicate Builders()
      reads dataBlock, indexBlock
    {
      && dataBlock != indexBlock
      && dataBlock.Valid() && !dataBlock.finished && indexBlock.Valid() && !indexBlock.finished
    }

    ghost predicate Filtering()
      reads this, dataBlock, filterBlock
    {
      filterBlock != null ==>
        && filterBlock.Valid() && |filterBlock.filters| == |filterBlock.filterOffsets| == |file| / FILTER_BASE
        && AllKnown(filterBlock, blocks) && Known(filterBlock, |file|, dataBlock.layout.entries)
    }

    ghost predicate Keeping()
      reads this, dataBlock, indexBlock
    {
      AllStored(file, blocks) && Counting()
    }

    ghost predicate Counting()
      reads `lastKey, `numEntries, `pendingIndexEntry, `pendingHandle, `blocks, `entries, dataBlock, indexBlock
    {
      && Content(blocks, dataBlock.layout.entries, indexBlock.layout.entries, entries, pendingIndexEntry, lastKey)
      && numEntries == |entries|
      && (pendingIndexEntry ==> pendingHandle == blocks[|blocks| - 1].handle)
      && Sized(dataBlock.layout.entries) && Sized(indexBlock.layout.entries) && |lastKey| < TWO_TO_32
    }

    ghost predicate Valid()
      reads this, dataBlock, indexBlock, filterBlock
    {
      Builders() && Filtering() && Keeping()
    }

    constructor (blockSize: nat, interval: nat, policy: BloomFilterPolicy?)
      requires interval >= 1 && (policy != null ==> 1 <= policy.k <= 30)
      ensures Valid() && !closed && entries == []
      ensures fresh(dataBlock) && fresh(indexBlock) && (filterBlock != null ==> fresh(filterBlock))
      ensures filterBlock == null <==> policy == null
      ensures filterBlock != null ==> filterBlock.policy == policy
      ensures this.blockSize == blockSize && dataBlock.interval == interval && indexBlock.interval == 1
    {
      this.blockSize := blockSize;
      dataBlock := new BlockBuilder(interval);
      indexBlock := new BlockBuilder(1);
      var f: FilterBlockBuilder? := null;
      if policy != null {
        f := new FilterBlockBuilder(policy);
        f.StartBlock(0);
      }
      filterBlock := f;
      file, lastKey, numEntries, closed, pendingIndexEntry, pendingHandle := [], [], 0, false, false, BlockHandle(0, 0);
      blocks, entries := [], [];
      new;
      assert Rows([], []) == [];
    }

    /** WriteRawBlock: the contents and the trailer go to the end of the file. */
    method WriteRawBlock(contents: Bytes) returns (handle: BlockHandle)
      modifies this`file
      ensures file == old(file) + contents + Trailer(contents)
      ensures handle == BlockHandle(|old(file)|, |contents|) && RawAt(file, handle, contents)
    {
      handle := BlockHandle(|file|, |contents|);
      hide Trailer;
      var t := Trailer(contents);
      Appended(file, contents, t);
      file := file + contents + t;
    }

    /** WriteBlock: the finished block goes to the file, and the builder starts over. */
    method WriteBlock(block: BlockBuilder) returns (handle: BlockHandle, ghost s: Stored)
      requires block.Valid() && !block.finished && Sized(block.layout.entries)
      modifies this`file, block
      ensures old(file) < file && handle == s.handle && handle.offset == |old(file)|
      ensures s.buffer == old(block.buffer) && s.restarts == old(block.restarts)
      ensures StoredAt(file, s) && s.layout == old(block.layout) && handle.offset + handle.size <= |file|
      ensures block.Valid() && !block.finished && block.layout.entries == []
    {
      hide Trailer, Encodes;
      s := Stored(BlockHandle(0, 0), block.buffer, block.restarts, block.counter, block.lastKey, block.layout, block.interval);
      var contents := block.Finish();
      handle := WriteRawBlock(contents);
      s := s.(handle := handle);
      block.Reset();
    }

    /** The data block goes to the file; its index entry waits for the next key. */
    method WriteDataBlock() returns (ghost s: Stored)
      requires Builders() && Keeping() && dataBlock.layout.entries != []
      modifies this`file, this`pendingIndexEntry, this`pendingHandle, this`blocks, dataBlock
      ensures Builders() && Keeping() && pendingIndexEntry && dataBlock.layout.entries == []
      ensures |old(file)| <= |file| && blocks == old(blocks) + [s]
      ensures s.handle.offset == |old(file)| && s.layout.entries == old(dataBlock.layout.entries)
      ensures SizeOf(s) == old(dataBlock.CurrentSizeEstimate())
    {
      hide BlockBuilder.Valid, StoredAt, Content, AllStored;
      RowIsOpen(blocks, dataBlock.layout.entries, indexBlock.layout.entries, entries, pendingIndexEntry, lastKey);
      ghost var was := file;
      pendingHandle, s := WriteBlock(dataBlock);
      BlockStored(was, file, blocks, s);
      RowWritten(blocks, s.layout.entries, indexBlock.layout.entries, entries, lastKey, s);
      blocks := blocks + [s];
      pendingIndexEntry := true;
    }

    /** The filters know all blocks, but may not have reached the end of the file. */
    ghost predicate Awaiting()
      reads this, filterBlock
    {
      filterBlock != null ==>
        && filterBlock.Valid() && |filterBlock.filters| == |filterBlock.filterOffsets| <= |file| / FILTER_BASE
        && AllKnown(filterBlock, blocks)
    }

    lemma BlockKnown(was: nat, known: seq<Stored>, s: Stored)
      requires was <= |file| && blocks == known + [s] && s.handle.offset == was
      requires filterBlock != null ==>
        && filterBlock.Valid() && |filterBlock.filters| == |filterBlock.filterOffsets| == was / FILTER_BASE
        && AllKnown(filterBlock, known) && Known(filterBlock, was, s.layout.entries)
      ensures Awaiting()
    {
      hide FilterBlockBuilder.Valid, AllKnown, Known;
      if filterBlock != null {
        Stretches(was, |file|);
        KnownMore(filterBlock, known, s);
      }
    }

    /** The keys to come belong to the stretch where the next block will start. */
    method StartFilterBlock()
      requires Builders() && Keeping() && dataBlock.layout.entries == []
      requires Awaiting()
      modifies filterBlock
      ensures Valid()
    {
      hide FilterBlockBuilder.Valid, FilterBlockBuilder.KeysAt, BlockBuilder.Valid, Content, AllStored;
      if filterBlock != null {
        filterBlock.StartBlock(|file|);
      }
    }

    /** Flush. */
    method Flush()
      requires Valid() && !closed
      modifies this`file, this`pendingIndexEntry, this`pendingHandle, this`blocks, dataBlock, filterBlock
      ensures Valid() && entries == old(entries)
      ensures old(dataBlock.layout.entries) == [] ==> blocks == old(blocks)
      ensures old(dataBlock.layout.entries) != [] ==> exists s ::
        && blocks == old(blocks) + [s] && s.layout.entries == old(dataBlock.layout.entries)
        && SizeOf(s) == old(dataBlock.CurrentSizeEstimate())
      ensures dataBlock.layout.entries == [] && (old(dataBlock.layout.entries) == [] ==>
        pendingIndexEntry == old(pendingIndexEntry))
    {
      hide BlockBuilder.Valid, FilterBlockBuilder.Valid,
           TableBuilder.Keeping, AllKnown, Known, TableBuilder.Awaiting;
      if dataBlock.Empty() {
        return;
      }
      ghost var was, known := |file|, blocks;
      ghost var s := WriteDataBlock();
      BlockKnown(was, known, s);
      hide TableBuilder.Filtering;
      StartFilterBlock();
    }

    /** The index entry of the block before goes in, now that the first key after it is known. */
    method IndexPrevious(e: KeyValue)
      requires Builders() && Keeping()
      requires IsInternal(e.key) && |e.key| < TWO_TO_32 && (numEntries > 0 ==> InternalLess(lastKey, e.key))
      modifies this`pendingIndexEntry, indexBlock
      ensures Builders() && AllStored(file, blocks) && Sized(indexBlock.layout.entries)
      ensures !pendingIndexEntry && dataBlock.layout == old(dataBlock.layout)
      ensures Content(blocks, dataBlock.layout.entries + [e], indexBlock.layout.entries, entries + [e], false, e.key)
    {
      hide BlockBuilder.Valid, StoredAt, Content, InternalLess, EncodeHandle, UserPart, AllStored;
      CountsEntries(blocks, dataBlock.layout.entries, indexBlock.layout.entries, entries, pendingIndexEntry, lastKey);
      if pendingIndexEntry {
        var sep := InternalSeparator(lastKey, e.key);
        ghost var seps := indexBlock.layout.entries;
        indexBlock.Add(sep, EncodeHandle(pendingHandle));
        RowOpened(blocks, seps, entries, lastKey, KeyValue(sep, EncodeHandle(pendingHandle)), e);
        pendingIndexEntry := false;
        NothingBefore(e);
      } else if dataBlock.layout.entries == [] {
        TableOpened(blocks, indexBlock.layout.entries, entries, lastKey, e);
        NothingBefore(e);
      } else {
        RowGrows(blocks, dataBlock.layout.entries, indexBlock.layout.entries, entries, lastKey, e);
      }
    }

    /** AddKey, when the table has filters. */
    method AddToFilter(e: KeyValue)
      requires Filtering()
      modifies filterBlock
      ensures filterBlock != null ==>
        && filterBlock.Valid() && |filterBlock.filters| == |filterBlock.filterOffsets| == |file| / FILTER_BASE
        && AllKnown(filterBlock, blocks) && Known(filterBlock, |file|, dataBlock.layout.entries + [e])
    {
      hide FilterBlockBuilder.Valid, FilterBlockBuilder.KeysAt;
      if filterBlock != null {
        filterBlock.AddKey(e.key);
      }
    }

    /** Add: the next key, above all before it.  The data block goes to the file exactly when
        it has reached the size of a block. */
    method Add(key: Bytes, value: Bytes)
      requires Valid() && !closed
      requires IsInternal(key) && |key| < TWO_TO_32 && (numEntries > 0 ==> InternalLess(lastKey, key))
      modifies this`file, this`lastKey, this`numEntries, this`pendingIndexEntry, this`pendingHandle, this`blocks,
        this`entries
      modifies dataBlock, indexBlock, filterBlock
      ensures Valid() && !closed && entries == old(entries) + [KeyValue(key, value)] && lastKey == key
      ensures if dataBlock.layout.entries == [] then
          exists s :: blocks == old(blocks) + [s] && SizeOf(s) >= blockSize
            && s.layout.entries == old(dataBlock.layout.entries) + [KeyValue(key, value)]
        else
          && blocks == old(blocks) && dataBlock.CurrentSizeEstimate() < blockSize
          && dataBlock.layout.entries == old(dataBlock.layout.entries) + [KeyValue(key, value)]
    {
      hide TableBuilder.Builders, TableBuilder.Filtering, TableBuilder.Keeping, InternalLess;
      AddToRow(key, value);
      if dataBlock.CurrentSizeEstimate() >= blockSize {
        Flush();
      }
    }

    method AddToRow(key: Bytes, value: Bytes)
      requires Valid() && !closed
      requires IsInternal(key) && |key| < TWO_TO_32 && (numEntries > 0 ==> InternalLess(lastKey, key))
      modifies this`lastKey, this`numEntries, this`pendingIndexEntry, this`entries
      modifies dataBlock, indexBlock, filterBlock
      ensures Valid() && entries == old(entries) + [KeyValue(key, value)] && lastKey == key
      ensures dataBlock.layout.entries == old(dataBlock.layout.entries) + [KeyValue(key, value)]
    {
      hide BlockBuilder.Valid, Content, AllStored, InternalLess, AllKnown, Known, FilterBlockBuilder.Valid;
      var e := KeyValue(key, value);
      AddToFilter(e);
      IndexPrevious(e);
      lastKey := key;
      numEntries := numEntries + 1;
      SizedMore(dataBlock.layout.entries, e);
      dataBlock.Add(key, value);
      entries := entries + [e];
    }

    /** The index entry of the last block, above all keys. */
    method IndexLast()
      requires Builders() && Keeping() && dataBlock.layout.entries == []
      modifies this`pendingIndexEntry, indexBlock
      ensures Builders() && AllStored(file, blocks) && Sized(indexBlock.layout.entries)
      ensures TableContent(blocks, indexBlock.layout.entries, entries) && !pendingIndexEntry
    {
      hide BlockBuilder.Valid, StoredAt, Content, TableContent, InternalLess, EncodeHandle, UserPart, AllStored;
      CountsEntries(blocks, dataBlock.layout.entries, indexBlock.layout.entries, entries, pendingIndexEntry, lastKey);
      if pendingIndexEntry {
        var sep := InternalSuccessor(lastKey);
        ghost var seps := indexBlock.layout.entries;
        indexBlock.Add(sep, EncodeHandle(pendingHandle));
        IndexClosed(blocks, seps, entries, lastKey, KeyValue(sep, EncodeHandle(pendingHandle)));
        pendingIndexEntry := false;
      } else {
        EmptyTable(blocks, indexBlock.layout.entries, entries, lastKey);
      }
    }

    /** Finish: the last data block, the filter block, the metaindex block, the index block and
        the footer. */
    method Finish() returns (ghost meta: Stored, ghost index: Stored, ghost fb: FilterData)
      requires Valid() && !closed
      modifies this`file, this`closed, this`pendingIndexEntry, this`pendingHandle, this`blocks, dataBlock, indexBlock,
        filterBlock
      ensures closed && entries == old(entries)
      ensures IsTable(file, if filterBlock == null then null else filterBlock.policy, blocks, meta, index, fb, entries)
    {
      hide BlockBuilder.Valid, AllStored, StoredAt, TableContent, FilterStored, Content, AllKnown, Known,
        FilterBlockBuilder.Valid, EncodeFooter, MetaOk;
      Flush();
      closed := true;
      var filterHandle;
      filterHandle, fb := WriteFilter();
      var metaHandle;
      metaHandle, meta := WriteMetaindex(filterHandle, fb);
      IndexLast();
      ghost var was := file;
      var indexHandle;
      indexHandle, index := WriteBlock(indexBlock);
      ghost var policy := if filterBlock == null then null else filterBlock.policy;
      ghost var before := file;
      file := file + EncodeFooter(Footer(metaHandle, indexHandle));
      AllStay(was, file, blocks, meta, policy, fb);
      IndexStays(before, file, index);
      assert file[|file| - FOOTER_SIZE..] == EncodeFooter(Footer(metaHandle, indexHandle));
    }

    /** The metaindex block: where the filter block is, if there is one. */
    method WriteMetaindex(filterHandle: Option<BlockHandle>, ghost fb: FilterData)
      returns (handle: BlockHandle, ghost meta: Stored)
      requires Builders() && Keeping()
      requires filterHandle.None? <==> filterBlock == null
      requires filterBlock != null ==> FilterStored(filterBlock.policy, file, filterHandle.value, fb, blocks)
      modifies this`file
      ensures Builders() && Keeping() && old(file) <= file
      ensures StoredAt(file, meta) && handle == meta.handle
      ensures MetaOk(file, if filterBlock == null then null else filterBlock.policy, meta, fb, blocks)
    {
      hide *;
      MetaFacts();
      var block := FillMetaindex(dataBlock.interval, filterHandle);
      ghost var was := file;
      handle, meta := WriteBlock(block);
      MoreStored(was, file, blocks);
      MetaWritten(was, file, if filterBlock == null then null else filterBlock.policy, filterHandle, meta, fb, blocks);
      StillKeeping();
    }

    lemma MetaFacts()
      requires Builders() && Keeping()
      ensures dataBlock.interval >= 1 && AllStored(file, blocks) && Counting()
    {
    }

    lemma StillKeeping()
      requires AllStored(file, blocks) && Counting()
      ensures Keeping()
    {
    }

    static method FillMetaindex(interval: nat, filterHandle: Option<BlockHandle>) returns (block: BlockBuilder)
      requires interval >= 1
      ensures fresh(block) && block.Valid() && !block.finished && Sized(block.layout.entries)
      ensures block.layout.entries ==
        if filterHandle.None? then [] else [KeyValue(FilterKey(), EncodeHandle(filterHandle.value))]
    {
      hide BlockBuilder.Valid, EncodeHandle;
      block := new BlockBuilder(interval);
      if filterHandle.Some? {
        block.Add(FilterKey(), EncodeHandle(filterHandle.value));
      }
    }

    method FinishFilter() returns (contents: Bytes, ghost fb: FilterData)
      requires filterBlock != null && Filtering()
      modifies filterBlock
      ensures contents == fb.body + Words(fb.offsets + [|fb.body|]) + [FILTER_BASE_LG as Byte]
      ensures Filters(filterBlock.policy, fb.body, fb.offsets, fb.filters) && AllIn(fb.filters, blocks)
    {
      hide Filters, Words, Flattened;
      ghost var body: Bytes;
      contents, body := filterBlock.Finish();
      fb := FilterData(body, filterBlock.filterOffsets, filterBlock.filters);
      forall b | 0 <= b < |blocks| ensures KnownIn(StretchKeys(fb.filters, blocks[b].handle.offset), blocks[b].layout.entries) {
        var stretch := blocks[b].handle.offset / FILTER_BASE;
        assert old(Known(filterBlock, blocks[b].handle.offset, blocks[b].layout.entries));
        assert old(filterBlock.KeysAt(stretch)) == StretchKeys(fb.filters, blocks[b].handle.offset);
      }
    }

    method WriteFilter() returns (filterHandle: Option<BlockHandle>, ghost fb: FilterData)
      requires Valid()
      modifies this`file, filterBlock
      ensures Builders() && Keeping() && old(file) <= file
      ensures filterHandle.None? <==> filterBlock == null
      ensures filterBlock != null ==> FilterStored(filterBlock.policy, file, filterHandle.value, fb, blocks)
    {
      hide Trailer, Content, StoredAt, AllStored, FilterBlockBuilder.Valid, BlockBuilder.Valid, Filters, AllIn,
        AllKnown, Known, RawAt, Words;
      filterHandle, fb := None, FilterData([], [], []);
      if filterBlock != null {
        ghost var was := file;
        var contents;
        contents, fb := FinishFilter();
        var handle := WriteRawBlock(contents);
        assert was <= file;
        MoreStored(was, file, blocks);
        filterHandle := Some(handle);
      }
    }
  }

  /** What the metaindex block says: nothing, or where the filters are. */
  ghost predicate MetaOk(file: Bytes, policy: BloomFilterPolicy?, meta: Stored, fb: FilterData, blocks: seq<Stored>) {
    if policy == null then meta.layout.entries == []
    else exists h ::
      meta.layout.entries == [KeyValue(FilterKey(), EncodeHandle(h))] && FilterStored(policy, file, h, fb, blocks)
  }

  lemma MetaWritten(was: Bytes, now: Bytes, policy: BloomFilterPolicy?, h: Option<BlockHandle>, meta: Stored,
                    fb: FilterData, blocks: seq<Stored>)
    requires was <= now && (h.None? <==> policy == null)
    requires policy != null ==> FilterStored(policy, was, h.value, fb, blocks)
    requires meta.layout.entries == if h.None? then [] else [KeyValue(FilterKey(), EncodeHandle(h.value))]
    ensures MetaOk(now, policy, meta, fb, blocks)
  {
    hide FilterStored, EncodeHandle;
    if policy != null {
      FilterStays(policy, was, now, h.value, fb, blocks);
    }
  }

  /** The bytes of a whole table: everything can be found from the footer at its end. */
  ghost predicate IsTable(file: Bytes, policy: BloomFilterPolicy?, blocks: seq<Stored>, meta: Stored, index: Stored,
                          fb: FilterData, entries: seq<KeyValue>)
  {
    && |file| >= FOOTER_SIZE && file[|file| - FOOTER_SIZE..] == EncodeFooter(Footer(meta.handle, index.handle))
    && AllStored(file, blocks) && StoredAt(file, meta) && StoredAt(file, index)
    && MetaOk(file, policy, meta, fb, blocks) && TableContent(blocks, index.layout.entries, entries)
  }

  /** What is written later leaves all this as it is. */
  lemma AllStay(was: Bytes, now: Bytes, blocks: seq<Stored>, meta: Stored, policy: BloomFilterPolicy?, fb: FilterData)
    requires was <= now && AllStored(was, blocks) && StoredAt(was, meta) && MetaOk(was, policy, meta, fb, blocks)
    ensures AllStored(now, blocks) && StoredAt(now, meta) && MetaOk(now, policy, meta, fb, blocks)
  {
    MoreStored(was, now, blocks);
    IndexStays(was, now, meta);
    hide AllStored, StoredAt, FilterStored;
    if policy != null {
      var h :| meta.layout.entries == [KeyValue(FilterKey(), EncodeHandle(h))] && FilterStored(policy, was, h, fb, blocks);
      FilterStays(policy, was, now, h, fb, blocks);
    }
  }

  lemma IndexStays(was: Bytes, now: Bytes, s: Stored)
    requires was <= now && StoredAt(was, s)
    ensures StoredAt(now, s)
  {
    MoreStored(was, now, [s]);
    hide StoredAt;
    assert StoredAt(now, [s][0]);
  }

  /** The filter block, its filters and their keys. */
  datatype FilterData = FilterData(body: Bytes, offsets: seq<nat>, filters: seq<seq<Bytes>>)

  ghost predicate KnownIn(keys: seq<Bytes>, entries: seq<KeyValue>) {
    forall i :: 0 <= i < |entries| ==> entries[i].key in keys
  }

  /** The keys of the filter for the stretch around an offset. */
  ghost function StretchKeys(filters: seq<seq<Bytes>>, offset: nat): seq<Bytes> {
    if offset / FILTER_BASE < |filters| then filters[offset / FILTER_BASE] else []
  }

  ghost predicate AllIn(filters: seq<seq<Bytes>>, blocks: seq<Stored>) {
    forall b :: 0 <= b < |blocks| ==> KnownIn(StretchKeys(filters, blocks[b].handle.offset), blocks[b].layout.entries)
  }

  ghost predicate FilterStored(policy: BloomFilterPolicy, file: Bytes, h: BlockHandle, fb: FilterData, blocks: seq<Stored>) {
    && RawAt(file, h, fb.body + Words(fb.offsets + [|fb.body|]) + [FILTER_BASE_LG as Byte])
    && Filters(policy, fb.body, fb.offsets, fb.filters)
    && AllIn(fb.filters, blocks)
  }

  lemma FilterStays(policy: BloomFilterPolicy, was: Bytes, now: Bytes, h: BlockHandle, fb: FilterData, blocks: seq<Stored>)
    requires was <= now && FilterStored(policy, was, h, fb, blocks)
    ensures FilterStored(policy, now, h, fb, blocks)
  {
    hide RawAt, Filters, AllIn;
    assert now == was + now[|was|..];
    RawStays(was, now[|was|..], h, fb.body + Words(fb.offsets + [|fb.body|]) + [FILTER_BASE_LG as Byte]);
  }

  lemma MoreStored(was: Bytes, now: Bytes, blocks: seq<Stored>)
    requires was <= now && AllStored(was, blocks)
    ensures AllStored(now, blocks)
  {
    hide StoredAt;
    assert now == was + now[|was|..];
    StoredStays(was, now[|was|..], blocks);
  }

  lemma NothingBefore(e: KeyValue)
    ensures [] + [e] == [e]
  {
  }

  lemma SizedMore(es: seq<KeyValue>, e: KeyValue)
    requires Sized(es) && |e.key| < TWO_TO_32
    ensures Sized(es + [e])
  {
  }

  lemma CountsEntries(blocks: seq<Stored>, current: seq<KeyValue>, seps: seq<KeyValue>, entries: seq<KeyValue>,
                      pending: bool, lastKey: Bytes)
    requires Content(blocks, current, seps, entries, pending, lastKey)
    ensures pending ==> current == [] && blocks != []
    ensures pending || current != [] ==> entries != [] && IsInternal(lastKey)
  {
    hide InternalLess, IsInternal, UserPart, LexLess, EncodeHandle, SeparatorOf, SuccessorOf;
    var rows := Rows(blocks, current);
    if rows != [] {
      LastOfFlat(rows);
    }
  }

  lemma KnownMore(fb: FilterBlockBuilder, blocks: seq<Stored>, s: Stored)
    requires AllKnown(fb, blocks) && Known(fb, s.handle.offset, s.layout.entries)
    ensures AllKnown(fb, blocks + [s])
  {
  }

  lemma Stretches(a: nat, b: nat)
    requires a <= b
    ensures a / FILTER_BASE <= b / FILTER_BASE
  {
  }

  lemma RowIsOpen(blocks: seq<Stored>, current: seq<KeyValue>, seps: seq<KeyValue>, entries: seq<KeyValue>,
                  pending: bool, lastKey: Bytes)
    requires Content(blocks, current, seps, entries, pending, lastKey) && current != []
    ensures !pending
  {
  }

  ghost predicate Sized(es: seq<KeyValue>) {
    forall i :: 0 <= i < |es| ==> |es[i].key| < TWO_TO_32
  }

  lemma Appended(file: Bytes, contents: Bytes, trailer: Bytes)
    ensures var now := file + contents + trailer;
      now[|file|..|file| + |contents| + |trailer|] == contents + trailer
  {
  }

  lemma BlockStored(was: Bytes, now: Bytes, blocks: seq<Stored>, s: Stored)
    requires AllStored(was, blocks) && was <= now && StoredAt(now, s)
    ensures AllStored(now, blocks + [s])
  {
    hide StoredAt;
    var more := now[|was|..];
    assert now == was + more;
    StoredStays(was, more, blocks);
  }
}
