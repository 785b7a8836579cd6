/** The interface of all iterators (include/leveldb/iterator.h), over a sorted run.  An
    iterator that has run off either end is not valid, and the two ends look alike. */
module Cursors {
  import opened DbFormat
  import opened Tables

  class Cursor {
    const entries: seq<Entry>
    var pos: nat

    /** Well formed; `Valid` in the interface is `AtEntry` here. */
    ghost predicate Ok()
      reads this
    {
      Sorted(entries) && pos <= |entries|
    }

    predicate AtEntry()
      reads this
    {
      pos < |entries|
    }

    function Current(): Entry
      requires AtEntry()
      reads this
    {
      entries[pos]
    }

    constructor (entries: seq<Entry>)
      requires Sorted(entries)
      ensures Ok() && this.entries == entries && !AtEntry()
    {
      this.entries := entries;
      pos := |entries|;
    }

    method SeekToFirst()
      requires Ok()
      modifies this
      ensures Ok() && pos == 0
    {
      pos := 0;
    }

    method SeekToLast()
      requires Ok()
      modifies this
      ensures Ok() && pos == if entries == [] then 0 else |entries| - 1
    {
      pos := if entries == [] then 0 else |entries| - 1;
    }

    method Seek(target: InternalKey)
      requires Ok()
      modifies this
      ensures Ok() && pos == SeekIndex(entries, target)
    {
      pos := SeekIndex(entries, target);
    }

    method Next()
      requires Ok() && AtEntry()
      modifies this
      ensures Ok() && pos == old(pos) + 1
    {
      pos := pos + 1;
    }

    method Prev()
      requires Ok() && AtEntry()
      modifies this
      ensures Ok() && pos == if old(pos) == 0 then |entries| else old(pos) - 1
    {
      pos := if pos == 0 then |entries| else pos - 1;
    }
  }
}
