/** Looking a key up in a table file (Table::Open, BlockReader and InternalGet in
    table/table.cc). */
module TableLookups {
  import opened Wrappers
  import opened DbFormat
  import opened Coding
  import opened BlockFormat
  import opened Blocks
  import opened Comparators
  import opened TableRows
  import opened BloomFilters
  import opened FilterBlocks
  import opened TableFooters
  import opened TableFiles

  /** A stored block reads as what was added to it. */
  lemma StoredReads(file: Bytes, s: Stored)
    requires StoredAt(file, s) && |file| < TWO_TO_32
    ensures var contents := ContentsOf(s);
      && ReadBlock(file, s.handle) == Some(contents)
      && Open(contents) == Opened(|s.buffer|, |s.restarts|)
      && Formed(contents, |s.buffer|, |s.restarts|, s.layout, s.interval)
  {
    hide Built, Formed, Open, ReadBlock;
    ReadsBack(file, s.handle, ContentsOf(s));
    FinishedIsFormed(s.buffer, s.restarts, s.counter, s.lastKey, s.layout, s.interval);
  }

  class Table {
    const file: Bytes
    const indexContents: Bytes
    const filter: FilterBlockReader?
    ghost const blocks: seq<Stored>
    ghost const index: Stored
    ghost const entries: seq<KeyValue>

    ghost predicate Valid() {
      && |file| < TWO_TO_32
      && AllStored(file, blocks) && StoredAt(file, index) && indexContents == ContentsOf(index)
      && TableContent(blocks, index.layout.entries, entries)
      && (filter != null ==> filter.Valid() && AllIn(filter.filters, blocks))
    }

    /** The rest of Open: the index block is read once; the filters too, if there are any. */
    constructor (file: Bytes, indexHandle: BlockHandle, filterHandle: Option<BlockHandle>, policy: BloomFilterPolicy?,
                 ghost blocks: seq<Stored>, ghost index: Stored, ghost entries: seq<KeyValue>, ghost fb: FilterData)
      requires |file| < TWO_TO_32
      requires AllStored(file, blocks) && StoredAt(file, index) && index.handle == indexHandle
      requires TableContent(blocks, index.layout.entries, entries)
      requires policy != null && filterHandle.Some? ==>
        1 <= policy.k <= 30 && FilterStored(policy, file, filterHandle.value, fb, blocks)
      ensures Valid() && this.entries == entries && this.file == file && this.blocks == blocks && this.index == index
      ensures filter != null <==> policy != null && filterHandle.Some?
      ensures filter != null ==> filter.policy == policy && filter.filters == fb.filters
    {
      hide AllStored, StoredAt, TableContent, Filters, AllIn, ReadBlock, Formed, RawAt;
      this.file, this.blocks, this.index, this.entries := file, blocks, index, entries;
      StoredReads(file, index);
      indexContents := ReadBlock(file, indexHandle).value;
      var f: FilterBlockReader? := null;
      if policy != null && filterHandle.Some? {
        FilterReads(policy, file, filterHandle.value, fb, blocks);
        var contents := ReadBlock(file, filterHandle.value).value;
        f := new FilterBlockReader(policy, contents, fb.body, fb.offsets, fb.filters);
      }
      filter := f;
    }

    /** BlockReader: an iterator over the block that an index entry points to. */
    method BlockReader(handleValue: Bytes, ghost s: Stored) returns (it: Iter)
      requires |file| < TWO_TO_32 && StoredAt(file, s) && handleValue == EncodeHandle(s.handle)
      ensures fresh(it) && it.StandsAt(|s.layout.entries|) && it.layout == s.layout && it.less == InternalLess
    {
      hide ReadBlock, Formed, StoredAt, DecodeHandle;
      StoredReads(file, s);
      HandleInRange(file, s);
      HandleRoundTrip(s.handle);
      var handle := DecodeHandle(handleValue).value;
      var contents := ReadBlock(file, handle).value;
      var o := Open(contents);
      it := new Iter(contents, o.restarts, o.numRestarts, InternalLess, s.layout, s.interval);
    }

    method IndexIterator() returns (it: Iter)
      requires Valid()
      ensures fresh(it) && it.StandsAt(|index.layout.entries|) && it.layout == index.layout && it.less == InternalLess
    {
      hide ReadBlock, Formed, StoredAt, AllStored, TableContent, AllIn;
      StoredReads(file, index);
      var o := Open(indexContents);
      it := new Iter(indexContents, o.restarts, o.numRestarts, InternalLess, index.layout, index.interval);
    }

    /** Seek in one block. */
    method SeekBlock(handleValue: Bytes, k: Bytes, ghost s: Stored) returns (found: Option<KeyValue>)
      requires |file| < TWO_TO_32 && StoredAt(file, s) && handleValue == EncodeHandle(s.handle)
      requires Ascending(s.layout.entries)
      ensures var j := LowerBound(s.layout.entries, InternalLess, k);
        found == if j < |s.layout.entries| then Some(s.layout.entries[j]) else None
    {
      hide StoredAt, Formed, EncodeHandle, InternalLess;
      var it := BlockReader(handleValue, s);
      AscendingIsMonotone(s.layout.entries, k);
      ghost var j := it.Seek(k);
      it.ValidIff(j);
      found := None;
      if it.Valid() {
        found := Some(it.Current());
      }
    }

    /** The block that the index names for a key, if the filter does not rule it out. */
    ghost function BlockFor(k: Bytes): (b: Option<nat>)
      requires Valid()
      ensures b.Some? ==> b.value < |blocks|
    {
      var b := LowerBound(index.layout.entries, InternalLess, k);
      if b == |blocks| || (filter != null && !filter.MayMatch(blocks[b].handle.offset, k)) then None else Some(b)
    }

    /** The first entry of a block at or above a key. */
    ghost function FirstIn(b: nat, k: Bytes): Option<KeyValue>
      requires b < |blocks|
    {
      var es := blocks[b].layout.entries;
      var j := LowerBound(es, InternalLess, k);
      if j < |es| then Some(es[j]) else None
    }

    /** InternalGet: what is reported is the first entry at or above the key; and that entry
        is reported whenever it has the user key asked for. */
    method InternalGet(k: Bytes) returns (found: Option<KeyValue>)
      requires Valid()
      ensures var i := LowerBound(entries, InternalLess, k);
        && (found.Some? ==> i < |entries| && found.value == entries[i])
        && (i < |entries| && UserPart(entries[i].key) == UserPart(k) ==> found == Some(entries[i]))
      ensures found == if BlockFor(k).None? then None else FirstIn(BlockFor(k).value, k)
    {
      hide StoredAt, Formed, EncodeHandle, DecodeHandle, InternalLess, UserPart, Indexed, Ascending, Flat;
      ghost var seps, rows := index.layout.entries, EntriesOf(blocks);
      var iiter := IndexIterator();
      SeparatorsAreMonotone(rows, seps, k);
      SeekByIndex(rows, seps, k);
      ghost var b := iiter.Seek(k);
      iiter.ValidIff(b);
      found := None;
      if iiter.Valid() {
        var handleValue := iiter.Current().value;
        assert handleValue == EncodeHandle(blocks[b].handle);
        var denied := Denied(handleValue, k, b);
        if !denied {
          RowAscends(rows, b);
          found := SeekBlock(handleValue, k, blocks[b]);
        }
      }
    }

    /** Whether the filter rules the block out; if so no entry of it has the user key. */
    method Denied(handleValue: Bytes, k: Bytes, ghost b: nat) returns (r: bool)
      requires Valid() && b < |blocks| && handleValue == EncodeHandle(blocks[b].handle)
      ensures r <==> filter != null && !filter.MayMatch(blocks[b].handle.offset, k)
      ensures r ==> forall i :: 0 <= i < |blocks[b].layout.entries| ==>
        UserPart(blocks[b].layout.entries[i].key) != UserPart(k)
    {
      hide StoredAt, TableContent, EncodeHandle, DecodeHandle, UserPart;
      r := false;
      if filter != null {
        HandleInRange(file, blocks[b]);
        HandleRoundTrip(blocks[b].handle);
        var handle := DecodeHandle(handleValue);
        if handle.Some? {
          var may := filter.KeyMayMatch(handle.value.offset, k);
          r := !may;
          if r {
            NoneHas(filter.filters, blocks, b, k);
          }
        }
      }
    }
  }

  ghost predicate EncodesFooter(file: Bytes, f: Footer) {
    |file| >= FOOTER_SIZE && file[|file| - FOOTER_SIZE..] == EncodeFooter(f)
  }

  /** The footer at the end of a file, if there is one. */
  method ReadFooter(file: Bytes) returns (footer: Option<Footer>)
    ensures |file| < FOOTER_SIZE ==> footer == None
    ensures footer.Some? ==> file[|file| - 8..] == [0x57, 0xFB, 0x80, 0x8B, 0x24, 0x75, 0x47, 0xDB]
    ensures forall f: Footer :: HandleFits(f.metaindex) && HandleFits(f.index) && EncodesFooter(file, f) ==>
      footer == Some(f)
  {
    if |file| < FOOTER_SIZE {
      return None;
    }
    var last := file[|file| - FOOTER_SIZE..];
    footer := DecodeFooter(last);
    assert last[HANDLES_SIZE..] == file[|file| - 8..];
    if footer.Some? && file[|file| - 8..] != [0x57, 0xFB, 0x80, 0x8B, 0x24, 0x75, 0x47, 0xDB] {
      MagicRefused(last);
    }
    forall f: Footer | HandleFits(f.metaindex) && HandleFits(f.index) && EncodesFooter(file, f)
      ensures footer == Some(f)
    {
      FooterRoundTrip(f);
    }
    hide DecodeFooter, EncodeFooter, HandleFits;
  }

  /** Open: the footer leads to the index block and to the metaindex block, and that one to
      the filters.  Given the policy of the builder, or none, the table that was built is
      found again in the bytes. */
  method OpenTable(file: Bytes, policy: BloomFilterPolicy?, ghost built: BloomFilterPolicy?, ghost blocks: seq<Stored>,
                   ghost meta: Stored, ghost index: Stored, ghost fb: FilterData, ghost entries: seq<KeyValue>)
    returns (table: Table?)
    requires |file| < TWO_TO_32 && IsTable(file, built, blocks, meta, index, fb, entries)
    requires policy != null && built != null ==> policy == built && 1 <= policy.k <= 30
    ensures table != null && fresh(table) && table.Valid() && table.entries == entries
    ensures table.filter != null <==> policy != null && built != null
    ensures table.filter != null ==> table.filter.policy == policy && table.filter.filters == fb.filters
  {
    hide AllStored, StoredAt, TableContent, FilterStored, ReadBlock, EncodeFooter, DecodeFooter, Formed, MetaOk;
    HandleInRange(file, meta);
    HandleInRange(file, index);
    assert EncodesFooter(file, Footer(meta.handle, index.handle));
    var footer := ReadFooter(file);
    if footer.None? {
      return null;
    }
    var filterHandle := None;
    if policy != null {
      filterHandle := ReadMeta(file, footer.value.metaindex, built, meta, fb, blocks);
    }
    table := new Table(file, footer.value.index, filterHandle, policy, blocks, index, entries, fb);
  }

  /** ReadMeta: look the filters of the policy up in the metaindex block. */
  method ReadMeta(file: Bytes, handle: BlockHandle, ghost built: BloomFilterPolicy?, ghost meta: Stored,
                  ghost fb: FilterData, ghost blocks: seq<Stored>)
    returns (filterHandle: Option<BlockHandle>)
    requires |file| < TWO_TO_32 && StoredAt(file, meta) && meta.handle == handle
    requires MetaOk(file, built, meta, fb, blocks)
    ensures filterHandle.Some? <==> built != null
    ensures built != null ==> FilterStored(built, file, filterHandle.value, fb, blocks)
  {
    hide StoredAt, FilterStored, ReadBlock, Formed, EncodeHandle, DecodeHandle;
    StoredReads(file, meta);
    var contents := ReadBlock(file, handle).value;
    var o := Open(contents);
    var it := new Iter(contents, o.restarts, o.numRestarts, LexLess, meta.layout, meta.interval);
    ghost var k := it.Seek(FilterKey());
    it.ValidIff(k);
    LexTotal(FilterKey(), FilterKey());
    filterHandle := None;
    if it.Valid() && it.Current().key == FilterKey() {
      ghost var h :| meta.layout.entries == [KeyValue(FilterKey(), EncodeHandle(h))] && FilterStored(built, file, h, fb, blocks);
      HandleOfFilter(built, file, h, fb, blocks);
      HandleRoundTrip(h);
      filterHandle := DecodeHandle(it.Current().value);
    }
  }

  lemma HandleOfFilter(policy: BloomFilterPolicy, file: Bytes, h: BlockHandle, fb: FilterData, blocks: seq<Stored>)
    requires FilterStored(policy, file, h, fb, blocks) && |file| < TWO_TO_32
    ensures TableFooters.HandleFits(h)
  {
    hide Trailer, Words, Filters, AllIn;
  }

  lemma HandleInRange(file: Bytes, s: Stored)
    requires StoredAt(file, s) && |file| < TWO_TO_32
    ensures s.handle.offset < TWO_TO_64 && s.handle.size < TWO_TO_64
  {
    hide Built, ContentsOf, Trailer;
  }

  lemma FilterReads(policy: BloomFilterPolicy, file: Bytes, h: BlockHandle, fb: FilterData, blocks: seq<Stored>)
    requires FilterStored(policy, file, h, fb, blocks) && |file| < TWO_TO_32
    ensures ReadBlock(file, h).Some? && FormedFilters(policy, ReadBlock(file, h).value, fb.body, fb.offsets, fb.filters)
  {
    hide ReadBlock, Filters, AllIn, Words;
    ReadsBack(file, h, fb.body + Words(fb.offsets + [|fb.body|]) + [FILTER_BASE_LG as Byte]);
  }

  lemma NoneHas(filters: seq<seq<Bytes>>, blocks: seq<Stored>, b: nat, k: Bytes)
    requires AllIn(filters, blocks) && b < |blocks|
    requires var index := blocks[b].handle.offset / FILTER_BASE;
      index < |filters| ==> !HasUserKey(filters[index], UserPart(k))
    ensures forall i :: 0 <= i < |blocks[b].layout.entries| ==> UserPart(blocks[b].layout.entries[i].key) != UserPart(k)
  {
    hide UserPart;
    var es := blocks[b].layout.entries;
    var keys := StretchKeys(filters, blocks[b].handle.offset);
    assert KnownIn(keys, es);
    forall i | 0 <= i < |es| ensures UserPart(es[i].key) != UserPart(k) {
      assert es[i].key in keys;
      var x :| 0 <= x < |keys| && keys[x] == es[i].key;
      assert UserPart(es[i].key) == UserPart(k) ==> HasUserKey(keys, UserPart(k));
    }
  }
}
