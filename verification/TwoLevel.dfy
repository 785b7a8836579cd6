/** An iterator over the blocks of a table, found through an iterator over its index
    (table/two_level_iterator.cc). */
module TwoLevel {
  import opened DbFormat
  import opened Tables
  import opened Cursors

  /** All blocks in a row. */
  function Flat(blocks: seq<seq<Entry>>): seq<Entry> {
    if blocks == [] then [] else Flat(blocks[..|blocks| - 1]) + blocks[|blocks| - 1]
  }

  /** Number of entries before block `i`. */
  function Base(blocks: seq<seq<Entry>>, i: nat): nat
    requires i <= |blocks|
  {
    |Flat(blocks[..i])|
  }

  /** The key of an index entry is at or after its block and before the next ones. */
  ghost predicate Separates(index: seq<Entry>, blocks: seq<seq<Entry>>) {
    && |index| == |blocks|
    && (forall i, j :: 0 <= i < |blocks| && 0 <= j < |blocks[i]| ==> LessEq(blocks[i][j].key, index[i].key))
    && (forall i, m, j :: 0 <= i < m < |blocks| && 0 <= j < |blocks[m]| ==> Less(index[i].key, blocks[m][j].key))
  }

  lemma NextBase(blocks: seq<seq<Entry>>, i: nat)
    requires i < |blocks|
    ensures Base(blocks, i + 1) == Base(blocks, i) + |blocks[i]|
  {
    assert blocks[..i + 1][..i] == blocks[..i];
  }

  lemma {:induction false} BaseBelow(blocks: seq<seq<Entry>>, i: nat)
    requires i <= |blocks|
    ensures Base(blocks, i) <= |Flat(blocks)|
    decreases |blocks| - i
  {
    if i < |blocks| {
      NextBase(blocks, i);
      BaseBelow(blocks, i + 1);
    } else {
      assert blocks[..i] == blocks;
    }
  }

  lemma {:induction false} FlatAt(blocks: seq<seq<Entry>>, i: nat, j: nat)
    requires i < |blocks| && j < |blocks[i]|
    ensures Base(blocks, i) + j < |Flat(blocks)| && Flat(blocks)[Base(blocks, i) + j] == blocks[i][j]
  {
    var n := |blocks| - 1;
    if i < n {
      FlatAt(blocks[..n], i, j);
      assert blocks[..n][..i] == blocks[..i];
    }
  }

  class TwoLevelIterator {
    const blocks: seq<seq<Entry>>
    const indexIter: Cursor
    var dataIter: Cursor?
    /** data_block_handle_: which block `dataIter` is on. */
    var dataBlock: nat

    ghost predicate Ok()
      reads this, indexIter, dataIter
    {
      && indexIter.Ok() && Separates(indexIter.entries, blocks) && Sorted(Flat(blocks))
      && (dataIter != null ==>
        dataIter != indexIter && dataIter.Ok() && dataBlock < |blocks| && dataIter.entries == blocks[dataBlock])
    }

    predicate AtEntry()
      reads this, dataIter
    {
      dataIter != null && dataIter.AtEntry()
    }

    /** The iterator stands at entry `k` of all blocks in a row, or nowhere if there is none. */
    ghost predicate StandsAt(k: int)
      reads this, indexIter, dataIter
    {
      && Ok()
      && (AtEntry() <==> 0 <= k < |Flat(blocks)|)
      && (AtEntry() ==> indexIter.pos == dataBlock && Base(blocks, dataBlock) + dataIter.pos == k)
    }

    constructor (indexIter: Cursor, blocks: seq<seq<Entry>>)
      requires indexIter.Ok() && Separates(indexIter.entries, blocks) && Sorted(Flat(blocks))
      ensures Ok() && !AtEntry() && this.blocks == blocks && this.indexIter == indexIter && fresh(this)
      ensures dataIter == null
    {
      this.indexIter, this.blocks := indexIter, blocks;
      dataIter, dataBlock := null, 0;
    }

    /** InitDataBlock: the data iterator of the block that the index stands at. */
    method InitDataBlock()
      requires Ok()
      modifies this
      ensures Ok()
      ensures dataIter == old(dataIter) || dataIter == null || fresh(dataIter)
      ensures !indexIter.AtEntry() ==> dataIter == null
      ensures indexIter.AtEntry() && old(dataIter) != null && old(dataBlock) == indexIter.pos ==> dataIter == old(dataIter)
      ensures indexIter.AtEntry() ==> dataIter != null && dataBlock == indexIter.pos
    {
      if !indexIter.AtEntry() {
        dataIter := null;
      } else if dataIter != null && dataBlock == indexIter.pos {
      } else {
        BlockSorted(blocks, indexIter.pos);
        dataIter := new Cursor(blocks[indexIter.pos]);
        dataBlock := indexIter.pos;
      }
    }

    /** Everything from the place of the data iterator on comes next; `k` is that place. */
    ghost predicate Between(k: nat)
      reads this, indexIter, dataIter
    {
      && Ok() && k <= |Flat(blocks)|
      && (dataIter != null ==> indexIter.pos == dataBlock && k == Base(blocks, dataBlock) + dataIter.pos)
      && (dataIter == null ==> indexIter.pos == |blocks| && k == |Flat(blocks)|)
    }

    method SkipEmptyDataBlocksForward(ghost k: nat)
      requires Between(k)
      modifies this, indexIter, dataIter
      ensures StandsAt(k) && (dataIter == null || AtEntry())
      ensures dataIter == old(dataIter) || dataIter == null || fresh(dataIter)
    {
      while dataIter == null || !dataIter.AtEntry()
        invariant Between(k)
        invariant dataIter == old(dataIter) || dataIter == null || fresh(dataIter)
        decreases dataIter != null, |blocks| - indexIter.pos
      {
        if !indexIter.AtEntry() {
          dataIter := null;
          return;
        }
        NextBase(blocks, indexIter.pos);
        indexIter.Next();
        BaseBelow(blocks, indexIter.pos);
        InitDataBlock();
        assert blocks[..|blocks|] == blocks;
        if dataIter != null {
          dataIter.SeekToFirst();
        }
      }
      FlatAt(blocks, dataBlock, dataIter.pos);
    }

    /** Everything up to the place of the data iterator comes next, backwards: `k` entries. */
    ghost predicate BetweenBack(k: nat)
      reads this, indexIter, dataIter
    {
      && Ok() && k <= |Flat(blocks)|
      && (dataIter != null ==>
        && indexIter.pos == dataBlock
        && k == Base(blocks, dataBlock) + (if dataIter.AtEntry() then dataIter.pos + 1 else 0))
      && (dataIter == null ==> indexIter.pos == |blocks| && k == 0)
    }

    method SkipEmptyDataBlocksBackward(ghost k: nat)
      requires BetweenBack(k)
      modifies this, indexIter, dataIter
      ensures StandsAt(k - 1) && (dataIter == null || AtEntry())
      ensures dataIter == old(dataIter) || dataIter == null || fresh(dataIter)
    {
      while dataIter == null || !dataIter.AtEntry()
        invariant BetweenBack(k)
        invariant dataIter == old(dataIter) || dataIter == null || fresh(dataIter)
        decreases dataIter != null, indexIter.pos
      {
        if !indexIter.AtEntry() {
          dataIter := null;
          return;
        }
        if indexIter.pos > 0 {
          NextBase(blocks, indexIter.pos - 1);
        }
        indexIter.Prev();
        InitDataBlock();
        if dataIter != null {
          dataIter.SeekToLast();
        }
      }
      FlatAt(blocks, dataBlock, dataIter.pos);
    }

    method SeekToFirst()
      requires Ok()
      modifies this, indexIter, dataIter
      ensures StandsAt(0)
      ensures dataIter == old(dataIter) || dataIter == null || fresh(dataIter)
    {
      indexIter.SeekToFirst();
      InitDataBlock();
      if dataIter != null {
        dataIter.SeekToFirst();
      }
      assert blocks[..0] == [] && blocks[..|blocks|] == blocks;
      SkipEmptyDataBlocksForward(0);
    }

    method SeekToLast()
      requires Ok()
      modifies this, indexIter, dataIter
      ensures StandsAt(|Flat(blocks)| - 1)
      ensures dataIter == old(dataIter) || dataIter == null || fresh(dataIter)
    {
      indexIter.SeekToLast();
      InitDataBlock();
      if dataIter != null {
        dataIter.SeekToLast();
        NextBase(blocks, dataBlock);
      }
      assert blocks[..|blocks|] == blocks;
      SkipEmptyDataBlocksBackward(|Flat(blocks)|);
    }

    /** Seek: the index finds the only block that can hold the first entry at or after the
        target; if the block ends before it, the next block starts after it. */
    method Seek(target: InternalKey)
      requires Ok()
      modifies this, indexIter, dataIter
      ensures StandsAt(SeekIndex(Flat(blocks), target))
      ensures dataIter == old(dataIter) || dataIter == null || fresh(dataIter)
    {
      indexIter.Seek(target);
      SeekInBlock(indexIter.entries, blocks, target);
      InitDataBlock();
      if dataIter != null {
        dataIter.Seek(target);
      }
      assert blocks[..|blocks|] == blocks;
      SkipEmptyDataBlocksForward(SeekIndex(Flat(blocks), target));
    }

    method Next(ghost k: nat)
      requires AtEntry() && StandsAt(k)
      modifies this, indexIter, dataIter
      ensures StandsAt(k + 1)
      ensures dataIter == old(dataIter) || dataIter == null || fresh(dataIter)
    {
      FlatAt(blocks, dataBlock, dataIter.pos);
      dataIter.Next();
      SkipEmptyDataBlocksForward(k + 1);
    }

    method Prev(ghost k: nat)
      requires AtEntry() && StandsAt(k)
      modifies this, indexIter, dataIter
      ensures StandsAt(k - 1)
      ensures dataIter == old(dataIter) || dataIter == null || fresh(dataIter)
    {
      dataIter.Prev();
      SkipEmptyDataBlocksBackward(k);
    }

    /** What the iterator yields where it stands. */
    lemma YieldsEntry(k: nat)
      requires AtEntry() && StandsAt(k)
      ensures dataIter.Current() == Flat(blocks)[k]
    {
      FlatAt(blocks, dataBlock, dataIter.pos);
    }
  }

  /** Where an entry of the row comes from. */
  lemma {:induction false} FlatFrom(blocks: seq<seq<Entry>>, k: nat) returns (i: nat, j: nat)
    requires k < |Flat(blocks)|
    ensures i < |blocks| && j < |blocks[i]| && k == Base(blocks, i) + j && Flat(blocks)[k] == blocks[i][j]
  {
    var n := |blocks| - 1;
    if k < |Flat(blocks[..n])| {
      i, j := FlatFrom(blocks[..n], k);
      assert blocks[..n][..i] == blocks[..i];
    } else {
      i, j := n, k - |Flat(blocks[..n])|;
    }
  }

  /** Entries from a place on are at or after the target, those before it are not. */
  lemma SeekIsUnique(es: seq<Entry>, target: InternalKey, k: nat)
    requires Sorted(es) && k <= |es|
    requires k > 0 ==> Less(es[k - 1].key, target)
    requires k < |es| ==> !Less(es[k].key, target)
    ensures SeekIndex(es, target) == k
  {
    forall i | 0 <= i < k ensures Less(es[i].key, target) {
      LessIsTotal(es[i].key, es[k - 1].key, target);
    }
  }

  /** Seeking in the block that the index points out is seeking in the whole row. */
  lemma SeekInBlock(index: seq<Entry>, blocks: seq<seq<Entry>>, target: InternalKey)
    requires Sorted(index) && Separates(index, blocks) && Sorted(Flat(blocks))
    ensures var b := SeekIndex(index, target); var k := SeekIndex(Flat(blocks), target);
      && b <= |blocks|
      && k == (if b == |blocks| then |Flat(blocks)| else Base(blocks, b) + SeekIndex(blocks[b], target))
  {
    var es := Flat(blocks);
    var b := SeekIndex(index, target);
    var k := if b == |blocks| then |es| else Base(blocks, b) + SeekIndex(blocks[b], target);
    BaseBelow(blocks, b);
    assert blocks[..|blocks|] == blocks;
    if b < |blocks| {
      NextBase(blocks, b);
      BaseBelow(blocks, b + 1);
    }
    if k > 0 {
      BeforeSeek(index, blocks, target, k - 1);
    }
    if k < |es| {
      AfterSeek(index, blocks, target, k);
    }
    SeekIsUnique(es, target, k);
  }

  lemma {:induction false} BasesAscend(blocks: seq<seq<Entry>>, i: nat, m: nat)
    requires i <= m <= |blocks|
    ensures Base(blocks, i) <= Base(blocks, m)
    decreases m - i
  {
    if i < m {
      NextBase(blocks, i);
      BasesAscend(blocks, i + 1, m);
    }
  }

  lemma BeforeSeek(index: seq<Entry>, blocks: seq<seq<Entry>>, target: InternalKey, k: nat)
    requires Sorted(index) && Separates(index, blocks) && k < |Flat(blocks)|
    requires var b := SeekIndex(index, target);
      b < |blocks| ==> k < Base(blocks, b) + SeekIndex(blocks[b], target)
    ensures Less(Flat(blocks)[k].key, target)
  {
    var b := SeekIndex(index, target);
    var i, j := FlatFrom(blocks, k);
    if b < i {
      BasesAscend(blocks, b + 1, i);
      NextBase(blocks, b);
    }
    if i < b {
      LessIsTotal(blocks[i][j].key, index[i].key, target);
    }
  }

  lemma AfterSeek(index: seq<Entry>, blocks: seq<seq<Entry>>, target: InternalKey, k: nat)
    requires Sorted(index) && Separates(index, blocks) && Sorted(Flat(blocks)) && k < |Flat(blocks)|
    requires var b := SeekIndex(index, target);
      b < |blocks| && k == Base(blocks, b) + SeekIndex(blocks[b], target)
    ensures !Less(Flat(blocks)[k].key, target)
  {
    var b := SeekIndex(index, target);
    var i, j := FlatFrom(blocks, k);
    if i < b {
      BasesAscend(blocks, i + 1, b);
      NextBase(blocks, i);
    }
    LessIsTotal(target, blocks[i][j].key, target);
    if i > b {
      LessIsTotal(target, index[b].key, blocks[i][j].key);
    }
  }

  lemma {:induction false} BlockSorted(blocks: seq<seq<Entry>>, i: nat)
    requires i < |blocks| && Sorted(Flat(blocks))
    ensures Sorted(blocks[i])
  {
    forall a, b | 0 <= a < b < |blocks[i]|
      ensures Less(blocks[i][a].key, blocks[i][b].key)
    {
      FlatAt(blocks, i, a);
      FlatAt(blocks, i, b);
    }
  }
}
