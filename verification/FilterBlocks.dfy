/** The filter block of a table: one Bloom filter for every 2 KB of data (table/filter_block.cc),
    over user keys (InternalFilterPolicy in db/dbformat.cc). */
module FilterBlocks {
  import opened DbFormat
  import opened Coding
  import opened BlockFormat
  import opened Comparators
  import opened BloomFilters

  const FILTER_BASE_LG: nat := 11
  const FILTER_BASE: nat := 2048

  function UserParts(keys: seq<Bytes>): (r: seq<Bytes>)
    ensures |r| == |keys| && forall i :: 0 <= i < |keys| ==> r[i] == UserPart(keys[i])
  {
    seq(|keys|, i requires 0 <= i < |keys| => UserPart(keys[i]))
  }

  /** The bytes of the filter for these keys; no bytes for no keys. */
  ghost predicate FilterFor(policy: BloomFilterPolicy, keys: seq<Bytes>, filter: Bytes) {
    if keys == [] then filter == []
    else
      && |filter| >= 2 && filter[|filter| - 1] as nat == policy.k
      && policy.IsFilter(UserParts(keys), filter[..|filter| - 1])
  }

  function EndOf(result: Bytes, offsets: seq<nat>, i: nat): nat {
    if i + 1 < |offsets| then offsets[i + 1] else |result|
  }

  ghost predicate FilterAt(policy: BloomFilterPolicy, result: Bytes, offsets: seq<nat>, filters: seq<seq<Bytes>>, i: nat)
    requires i < |offsets| == |filters|
  {
    && offsets[i] <= EndOf(result, offsets, i) <= |result|
    && FilterFor(policy, filters[i], result[offsets[i]..EndOf(result, offsets, i)])
  }

  ghost predicate Filters(policy: BloomFilterPolicy, result: Bytes, offsets: seq<nat>, filters: seq<seq<Bytes>>) {
    && |offsets| == |filters|
    && forall i :: 0 <= i < |offsets| ==> FilterAt(policy, result, offsets, filters, i)
  }

  /** The keys one after the other, and where each starts. */
  predicate Flattened(flat: Bytes, start: seq<nat>, keys: seq<Bytes>) {
    && |start| == |keys|
    && forall i :: 0 <= i < |keys| ==> PieceAt(flat, start, keys, i)
  }

  predicate PieceAt(flat: Bytes, start: seq<nat>, keys: seq<Bytes>, i: nat)
    requires i < |start| == |keys|
  {
    var end := EndOf(flat, start, i);
    start[i] <= end <= |flat| && flat[start[i]..end] == keys[i]
  }

  class FilterBlockBuilder {
    const policy: BloomFilterPolicy
    var flat: Bytes
    var start: seq<nat>
    var result: Bytes
    var filterOffsets: seq<nat>
    /** The keys of each filter, and those that wait for the next. */
    ghost var filters: seq<seq<Bytes>>
    ghost var pending: seq<Bytes>

    ghost predicate Valid()
      reads this
    {
      && 1 <= policy.k <= 30
      && Flattened(flat, start, pending)
      && Filters(policy, result, filterOffsets, filters)
    }

    /** The keys that the filter for a stretch of the file has or will have. */
    ghost function KeysAt(index: nat): seq<Bytes>
      reads this
    {
      if index < |filters| then filters[index] else if index == |filters| then pending else []
    }

    constructor (policy: BloomFilterPolicy)
      requires 1 <= policy.k <= 30
      ensures Valid() && filterOffsets == [] && this.policy == policy && pending == [] && filters == []
    {
      this.policy := policy;
      flat, start, result, filterOffsets, filters, pending := [], [], [], [], [], [];
    }

    /** StartBlock: filters for the stretches that end before the block starts. */
    method StartBlock(blockOffset: nat)
      requires Valid() && |filterOffsets| <= blockOffset / FILTER_BASE
      modifies this
      ensures Valid() && |filterOffsets| == |filters| == blockOffset / FILTER_BASE
      ensures forall i: nat :: KeysAt(i) == old(KeysAt(i))
    {
      while blockOffset / FILTER_BASE > |filterOffsets|
        invariant Valid() && |filterOffsets| <= blockOffset / FILTER_BASE
        invariant forall i: nat :: KeysAt(i) == old(KeysAt(i))
        decreases blockOffset / FILTER_BASE - |filterOffsets|
      {
        GenerateFilter();
      }
    }

    method AddKey(key: Bytes)
      requires Valid()
      modifies this`flat, this`start, this`pending
      ensures Valid()
      ensures forall i: nat :: KeysAt(i) == if i == |filters| then old(KeysAt(i)) + [key] else old(KeysAt(i))
    {
      PieceAdded(flat, start, pending, key);
      start := start + [|flat|];
      flat := flat + key;
      pending := pending + [key];
    }

    /** The keys again, cut out of the flat string, with their user parts. */
    method CutKeys() returns (keys: seq<Bytes>)
      requires Flattened(flat, start, pending)
      ensures keys == UserParts(pending)
    {
      keys := [];
      for i := 0 to |start|
        invariant |keys| == i && forall j :: 0 <= j < i ==> keys[j] == UserPart(pending[j])
      {
        assert PieceAt(flat, start, pending, i);
        var end := if i + 1 < |start| then start[i + 1] else |flat|;
        keys := keys + [UserPart(flat[start[i]..end])];
      }
    }

    method GenerateFilter()
      requires Valid()
      modifies this
      ensures Valid() && filters == old(filters) + [old(pending)] && pending == []
    {
      if |start| == 0 {
        FilterAppended(policy, result, filterOffsets, filters, [], []);
        assert result + [] == result;
        filterOffsets := filterOffsets + [|result|];
        filters := filters + [[]];
        return;
      }
      var keys := CutKeys();
      ghost var was := result;
      filterOffsets := filterOffsets + [|result|];
      result := policy.CreateFilter(keys, result);
      ghost var filter := result[|was|..];
      assert result == was + filter;
      assert filter[..|filter| - 1] == result[|was|..|result| - 1];
      FilterAppended(policy, was, old(filterOffsets), filters, pending, filter);
      filters := filters + [pending];
      flat, start, pending := [], [], [];
    }

    /** Finish: the offsets, where they start, and the size of a stretch. */
    method Finish() returns (contents: Bytes, ghost body: Bytes)
      requires Valid()
      modifies this
      ensures Valid() && forall i: nat :: old(KeysAt(i)) == if i < |filters| then filters[i] else []
      ensures |filters| == |old(filters)| + if old(pending) == [] then 0 else 1
      ensures contents == body + Words(filterOffsets + [|body|]) + [FILTER_BASE_LG as Byte]
      ensures Filters(policy, body, filterOffsets, filters)
    {
      if |start| != 0 {
        GenerateFilter();
      }
      var arrayOffset := |result|;
      var tail: Bytes := [];
      for i := 0 to |filterOffsets|
        invariant tail == Words(filterOffsets[..i])
      {
        assert filterOffsets[..i + 1][..i] == filterOffsets[..i];
        tail := tail + Word(filterOffsets[i]);
      }
      assert filterOffsets[..|filterOffsets|] == filterOffsets;
      assert (filterOffsets + [|result|])[..|filterOffsets|] == filterOffsets;
      body := result;
      contents := result + (tail + Word(arrayOffset)) + [FILTER_BASE_LG as Byte];
    }
  }

  lemma PieceAdded(flat: Bytes, start: seq<nat>, keys: seq<Bytes>, key: Bytes)
    requires Flattened(flat, start, keys)
    ensures Flattened(flat + key, start + [|flat|], keys + [key])
  {
    var f, s, k := flat + key, start + [|flat|], keys + [key];
    forall i | 0 <= i < |k| ensures PieceAt(f, s, k, i) {
      if i < |keys| {
        assert PieceAt(flat, start, keys, i);
        assert EndOf(f, s, i) == EndOf(flat, start, i);
        assert f[start[i]..EndOf(flat, start, i)] == flat[start[i]..EndOf(flat, start, i)];
      }
    }
  }

  lemma FilterAppended(policy: BloomFilterPolicy, result: Bytes, offsets: seq<nat>, filters: seq<seq<Bytes>>,
                       keys: seq<Bytes>, filter: Bytes)
    requires Filters(policy, result, offsets, filters) && FilterFor(policy, keys, filter)
    ensures Filters(policy, result + filter, offsets + [|result|], filters + [keys])
  {
    hide FilterFor;
    var r, o, f := result + filter, offsets + [|result|], filters + [keys];
    forall i | 0 <= i < |f| ensures FilterAt(policy, r, o, f, i) {
      if i < |filters| {
        assert FilterAt(policy, result, offsets, filters, i);
        assert EndOf(r, o, i) == EndOf(result, offsets, i);
        assert r[offsets[i]..EndOf(result, offsets, i)] == result[offsets[i]..EndOf(result, offsets, i)];
      } else {
        assert r[|result|..|r|] == filter;
      }
    }
  }

  /** Bytes that Finish may have returned. */
  ghost predicate FormedFilters(policy: BloomFilterPolicy, contents: Bytes, body: Bytes, offsets: seq<nat>,
                                filters: seq<seq<Bytes>>) {
    && contents == body + Words(offsets + [|body|]) + [FILTER_BASE_LG as Byte]
    && Filters(policy, body, offsets, filters)
    && |contents| < TWO_TO_32
  }

  class FilterBlockReader {
    const policy: BloomFilterPolicy
    const data: Bytes
    const arrayOffset: nat
    const num: nat
    const baseLg: nat
    ghost const body: Bytes
    ghost const offsets: seq<nat>
    ghost const filters: seq<seq<Bytes>>

    ghost predicate Valid() {
      && 1 <= policy.k <= 30
      && FormedFilters(policy, data, body, offsets, filters)
      && arrayOffset == |body| && num == |offsets| && baseLg == FILTER_BASE_LG
    }

    constructor (policy: BloomFilterPolicy, contents: Bytes, ghost body: Bytes, ghost offsets: seq<nat>,
                 ghost filters: seq<seq<Bytes>>)
      requires 1 <= policy.k <= 30 && FormedFilters(policy, contents, body, offsets, filters)
      ensures Valid() && this.filters == filters && this.policy == policy
    {
      this.policy, this.body, this.offsets, this.filters := policy, body, offsets, filters;
      WordHere(body, offsets + [|body|], [FILTER_BASE_LG as Byte], |offsets|);
      var n := |contents|;
      var lastWord := DecodeFixed32(Four(contents, n - 5));
      data, baseLg := contents, contents[n - 1] as nat;
      arrayOffset, num := lastWord, (n - 5 - lastWord) / 4;
    }

    /** The filter for the stretch in which a block starts may match the user key; a stretch
        without a filter matches everything. */
    ghost predicate MayMatch(blockOffset: nat, key: Bytes)
      requires Valid()
    {
      var index := blockOffset / FILTER_BASE;
      index < |filters| ==>
        FilterAt(policy, body, offsets, filters, index) &&
        policy.MayMatch(UserPart(key), body[offsets[index]..EndOf(body, offsets, index)])
    }

    /** KeyMayMatch asks the filter for the stretch that the block starts in; it never denies
        a user key that the stretch has. */
    method KeyMayMatch(blockOffset: nat, key: Bytes) returns (r: bool)
      requires Valid()
      ensures r == MayMatch(blockOffset, key)
      ensures var index := blockOffset / FILTER_BASE;
        index < |filters| && HasUserKey(filters[index], UserPart(key)) ==> r
    {
      hide Words, DecodeFixed32, FilterFor, Filters, BloomFilterPolicy.MayMatch, HasUserKey, Four;
      BaseIs();
      var index := blockOffset / PowerOfTwo(baseLg);
      if index < num {
        TwoWords(index);
        var start := DecodeFixed32(Four(data, arrayOffset + 4 * index));
        var limit := DecodeFixed32(Four(data, arrayOffset + 4 * (index + 1)));
        if start <= limit <= arrayOffset {
          r := policy.KeyMayMatch(UserPart(key), data[start..limit]);
          if HasUserKey(filters[index], UserPart(key)) {
            KeyMatches(policy, filters[index], data[start..limit], UserPart(key));
          }
        } else if start == limit {
          r := false;
        } else {
          r := true;
        }
      } else {
        r := true;
      }
    }

    /** The words at an index tell where its filter starts and ends. */
    lemma TwoWords(index: nat)
      requires Valid() && index < num
      ensures arrayOffset + 4 * (index + 1) + 4 <= |data|
      ensures
        var start := DecodeFixed32(Four(data, arrayOffset + 4 * index));
        var limit := DecodeFixed32(Four(data, arrayOffset + 4 * (index + 1)));
        && start <= limit <= arrayOffset && FilterFor(policy, filters[index], data[start..limit])
        && FilterAt(policy, body, offsets, filters, index)
        && data[start..limit] == body[offsets[index]..EndOf(body, offsets, index)]
    {
      hide DecodeFixed32, FilterFor, Four, Words;
      assert FilterAt(policy, body, offsets, filters, index);
      WordHere(body, offsets + [|body|], [FILTER_BASE_LG as Byte], index);
      WordHere(body, offsets + [|body|], [FILTER_BASE_LG as Byte], index + 1);
      var start, limit := offsets[index], EndOf(body, offsets, index);
      assert data[start..limit] == body[start..limit];
    }

    lemma BaseIs()
      requires Valid()
      ensures num == |filters|
      ensures PowerOfTwo(FILTER_BASE_LG) == FILTER_BASE
    {
      assert PowerOfTwo(4) == 16;
      assert PowerOfTwo(8) == 256;
    }
  }

  ghost predicate HasUserKey(keys: seq<Bytes>, user: Bytes) {
    exists i :: 0 <= i < |keys| && UserPart(keys[i]) == user
  }

  lemma KeyMatches(policy: BloomFilterPolicy, keys: seq<Bytes>, filter: Bytes, user: Bytes)
    requires FilterFor(policy, keys, filter) && HasUserKey(keys, user)
    ensures policy.MayMatch(user, filter)
  {
    var i :| 0 <= i < |keys| && UserPart(keys[i]) == user;
    assert UserParts(keys)[i] == user;
    policy.FilterMatchesItsKeys(UserParts(keys), filter, user);
  }

  lemma WordHere(body: Bytes, words: seq<nat>, tail: Bytes, j: nat)
    requires j < |words| && words[j] < TWO_TO_32
    ensures var contents := body + Words(words) + tail;
      |body| + 4 * j + 4 <= |contents| && DecodeFixed32(Four(contents, |body| + 4 * j)) == words[j]
  {
    hide Words, Word, DecodeFixed32;
    WordAt(words, j);
    FourInMiddle(body, Words(words), tail, 4 * j);
    WordRoundTrip(words[j]);
  }

  lemma FourInMiddle(a: Bytes, b: Bytes, c: Bytes, i: nat)
    requires i + 4 <= |b|
    ensures Four(a + b + c, |a| + i) == Four(b, i)
  {
  }
}
