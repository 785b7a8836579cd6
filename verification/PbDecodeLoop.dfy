/** The loop of pb_decode_noinit (pb_decode.c): an iterator that wraps around (pb_common.c), and a
    bitmap of the required fields that have come. */
module PbDecodeLoop {
  import opened Wrappers
  import opened DbFormat
  import opened PbMessages
  import opened PbDecoders

  // ---------- the iterator ----------

  class FieldIter {
    const fields: seq<Field>
    var pos: nat
    var requiredIndex: nat

    ghost predicate Valid()
      reads this
    {
      pos < |fields| && requiredIndex == RequiredBefore(fields, pos)
    }

    constructor (fields: seq<Field>)
      requires fields != []
      ensures Valid() && this.fields == fields && pos == 0
    {
      this.fields, pos, requiredIndex := fields, 0, 0;
    }

    /** pb_field_iter_next: false once it is back at the first field. */
    method Next() returns (more: bool)
      requires Valid()
      modifies this
      ensures Valid() && more == (old(pos) + 1 < |fields|) && pos == if more then old(pos) + 1 else 0
    {
      if pos + 1 == |fields| {
        pos, requiredIndex := 0, 0;
        return false;
      }
      if fields[pos].htype.Required? {
        requiredIndex := requiredIndex + 1;
      }
      pos := pos + 1;
      more := true;
    }

    /** Field number `k` from `start` on, around the end. */
    ghost function Around(start: nat, k: nat): nat {
      if start + k < |fields| then start + k else start + k - |fields|
    }

    /** pb_field_iter_find: once around, from where the last search ended. */
    method FindTag(tag: nat) returns (found: bool)
      requires Valid() && WellFormed(fields)
      modifies this
      ensures Valid() && (found <==> Find(fields, tag).Some?) && (found ==> Find(fields, tag) == Some(pos))
    {
      var start := pos;
      ghost var k := 0;
      found := false;
      while true
        invariant Valid() && 0 <= k < |fields| && pos == Around(start, k)
        invariant forall j :: 0 <= j < k ==> fields[Around(start, j)].tag != tag
        decreases |fields| - k
      {
        if fields[pos].tag == tag {
          FindIs(fields, pos);
          return true;
        }
        var _ := Next();
        k := k + 1;
        if pos == start {
          break;
        }
      }
      forall i | 0 <= i < |fields|
        ensures fields[i].tag != tag
      {
        assert i == Around(start, if i >= start then i - start else i + |fields| - start);
      }
    }
  }

  // ---------- the bitmap ----------

  predicate Bit(w: nat, k: nat) {
    if k == 0 then w % 2 == 1 else Bit(w / 2, k - 1)
  }

  /** w | 1 << k. */
  function SetBit(w: nat, k: nat): nat {
    if k == 0 then w / 2 * 2 + 1 else SetBit(w / 2, k - 1) * 2 + w % 2
  }

  /** The lowest `n` bits. */
  function Ones(n: nat): nat {
    if n == 0 then 0 else Ones(n - 1) * 2 + 1
  }

  lemma {:induction false} SetBitSets(w: nat, k: nat, j: nat)
    ensures Bit(SetBit(w, k), j) <==> j == k || Bit(w, j)
    decreases k
  {
    if k > 0 && j > 0 {
      SetBitSets(w / 2, k - 1, j - 1);
      assert SetBit(w, k) / 2 == SetBit(w / 2, k - 1);
    }
  }

  lemma {:induction false} OnesHas(n: nat, k: nat)
    ensures Bit(Ones(n), k) <==> k < n
    decreases n
  {
    if n == 0 {
      NoBitOfZero(k);
    } else if k > 0 {
      OnesHas(n - 1, k - 1);
      assert Ones(n) / 2 == Ones(n - 1);
    }
  }

  lemma {:induction false} NoBitOfZero(k: nat)
    ensures !Bit(0, k)
  {
    if k > 0 {
      NoBitOfZero(k - 1);
    }
  }

  lemma {:induction false} SameBits(a: nat, b: nat)
    requires forall k: nat :: Bit(a, k) <==> Bit(b, k)
    ensures a == b
    decreases a + b
  {
    if a + b > 0 {
      assert Bit(a, 0) <==> Bit(b, 0);
      forall k: nat
        ensures Bit(a / 2, k) <==> Bit(b / 2, k)
      {
        assert Bit(a, k + 1) <==> Bit(b, k + 1);
      }
      SameBits(a / 2, b / 2);
    }
  }

  ghost predicate HasLow(w: nat, n: nat) {
    forall k: nat :: Bit(w, k) <==> k < n
  }

  /** The test of a word: it equals the lowest `n` ones exactly when those bits are set and
      no others. */
  lemma OnesIff(w: nat, n: nat)
    ensures w == Ones(n) <==> HasLow(w, n)
  {
    forall k: nat
      ensures Bit(Ones(n), k) <==> k < n
    {
      OnesHas(n, k);
    }
    assert HasLow(Ones(n), n);
    if HasLow(w, n) {
      SameBits(w, Ones(n));
    }
  }

  // ---------- required fields ----------

  /** The bitmap says which required fields have come, and nothing else is set in it. */
  ghost predicate Bitmap(fields: seq<Field>, words: seq<nat>, seen: set<nat>) {
    && |words| == 2
    && (forall i :: 0 <= i < |fields| && MustCome(fields, i) ==> (IsMarked(words, RequiredBefore(fields, i)) <==> i in seen))
    && NoneMarked(words, RequiredBefore(fields, |fields|))
    && NoBitFrom(words[0], 32) && NoBitFrom(words[1], 32)
  }

  predicate IsMarked(words: seq<nat>, r: nat)
    requires |words| == 2 && r < MAX_REQUIRED
  {
    if r < 32 then Bit(words[0], r) else Bit(words[1], r - 32)
  }

  /** fields_seen[r >> 5] |= 1 << (r & 31). */
  function Mark(words: seq<nat>, r: nat): (marked: seq<nat>)
    requires |words| == 2 && r < MAX_REQUIRED
    ensures |marked| == 2
  {
    words[r / 32 := SetBit(words[r / 32], r % 32)]
  }

  lemma MarkMarks(words: seq<nat>, r: nat, q: nat)
    requires |words| == 2 && r < MAX_REQUIRED && q < MAX_REQUIRED
    ensures IsMarked(Mark(words, r), q) <==> q == r || IsMarked(words, q)
  {
    if r < 32 {
      SetBitSets(words[0], r, q);
    } else if q >= 32 {
      assert r / 32 == 1 && r % 32 == r - 32;
      SetBitSets(words[1], r - 32, q - 32);
    }
  }

  lemma {:induction false} RequiredAscends(fields: seq<Field>, i: nat, j: nat)
    requires i < j <= |fields|
    ensures RequiredBefore(fields, i) <= RequiredBefore(fields, j)
    ensures fields[i].htype.Required? ==> RequiredBefore(fields, i) < RequiredBefore(fields, j)
    decreases j
  {
    if i < j - 1 {
      RequiredAscends(fields, i, j - 1);
    }
  }

  /** Every number below the count belongs to a required field. */
  lemma {:induction false} RequiredAt(fields: seq<Field>, n: nat, r: nat) returns (i: nat)
    requires n <= |fields| && r < RequiredBefore(fields, n)
    ensures i < n && fields[i].htype.Required? && RequiredBefore(fields, i) == r
  {
    if r < RequiredBefore(fields, n - 1) {
      i := RequiredAt(fields, n - 1, r);
    } else {
      i := n - 1;
    }
  }

  lemma NothingMarked(fields: seq<Field>)
    ensures Bitmap(fields, [0, 0], {})
  {
    forall k: nat
      ensures !Bit(0, k)
    {
      NoBitOfZero(k);
    }
  }

  /** A required field is marked when it comes. */
  lemma MarkCame(fields: seq<Field>, words: seq<nat>, seen: set<nat>, i: nat)
    requires Bitmap(fields, words, seen) && i < |fields| && fields[i].htype.Required?
    ensures var r := RequiredBefore(fields, i);
      Bitmap(fields, if r < MAX_REQUIRED then Mark(words, r) else words, seen + {i})
  {
    var r := RequiredBefore(fields, i);
    RequiredAscends(fields, i, |fields|);
    forall j | 0 <= j < |fields| && fields[j].htype.Required? && j != i
      ensures RequiredBefore(fields, j) != r
    {
      if j < i {
        RequiredAscends(fields, j, i);
      } else {
        RequiredAscends(fields, i, j);
      }
    }
    if r < MAX_REQUIRED {
      forall q: nat | q < MAX_REQUIRED
        ensures IsMarked(Mark(words, r), q) <==> q == r || IsMarked(words, q)
      {
        MarkMarks(words, r, q);
      }
      forall k: nat | k >= 32
        ensures !Bit(Mark(words, r)[0], k) && !Bit(Mark(words, r)[1], k)
      {
        SetBitSets(words[r / 32], r % 32, k);
      }
    }
  }

  /** The words as the code tests them: whole ones first, then what is left. */
  predicate Passes(words: seq<nat>, count: nat)
    requires |words| == 2 && count <= MAX_REQUIRED
  {
    && (forall x :: 0 <= x < count / 32 ==> words[x] == Ones(32))
    && (count % 32 != 0 ==> words[count / 32] == Ones(count % 32))
  }

  ghost predicate AllMarked(words: seq<nat>, from: nat, to: nat)
    requires |words| == 2 && to <= MAX_REQUIRED
  {
    forall r: nat :: from <= r < to ==> IsMarked(words, r)
  }

  ghost predicate NoneMarked(words: seq<nat>, from: nat)
    requires |words| == 2
  {
    forall r: nat :: from <= r < MAX_REQUIRED ==> !IsMarked(words, r)
  }

  ghost predicate BitsBelow(w: nat, n: int) {
    forall k: nat :: k < n ==> Bit(w, k)
  }

  ghost predicate NoBitFrom(w: nat, n: int) {
    forall k: nat :: k >= n ==> !Bit(w, k)
  }

  lemma WordIsLow(w: nat, n: nat)
    requires NoBitFrom(w, n)
    ensures w == Ones(n) <==> BitsBelow(w, n)
  {
    OnesIff(w, n);
    hide Bit, Ones;
    if BitsBelow(w, n) {
      assert HasLow(w, n);
    } else {
      assert !HasLow(w, n);
    }
  }

  /** No bit of a word is set past the count. */
  lemma NoBitPast(words: seq<nat>, count: nat)
    requires |words| == 2 && count <= MAX_REQUIRED && NoneMarked(words, count)
    requires NoBitFrom(words[0], 32) && NoBitFrom(words[1], 32)
    ensures NoBitFrom(words[0], count) && NoBitFrom(words[1], count - 32)
  {
    hide Bit;
    forall k: nat | count <= k < 32
      ensures !Bit(words[0], k)
    {
      assert !IsMarked(words, k);
    }
    forall k: nat | k < 32 && k + 32 >= count
      ensures !Bit(words[1], k)
    {
      assert !IsMarked(words, k + 32);
    }
  }

  lemma MarkedByWord(words: seq<nat>, count: nat)
    requires |words| == 2 && count <= MAX_REQUIRED
    ensures AllMarked(words, 0, count) <==>
      BitsBelow(words[0], if count < 32 then count else 32) && BitsBelow(words[1], count - 32)
  {
    hide Bit;
    if AllMarked(words, 0, count) {
      forall k: nat | k < 32 && k < count
        ensures Bit(words[0], k)
      {
        assert IsMarked(words, k);
      }
      forall k: nat | k + 32 < count
        ensures Bit(words[1], k)
      {
        assert IsMarked(words, k + 32);
      }
    } else {
      var r: nat :| r < count && !IsMarked(words, r);
      assert if r < 32 then !Bit(words[0], r) else !Bit(words[1], r - 32);
    }
  }

  lemma PassesIfMarked(words: seq<nat>, count: nat)
    requires |words| == 2 && count <= MAX_REQUIRED && NoneMarked(words, count)
    requires NoBitFrom(words[0], 32) && NoBitFrom(words[1], 32)
    ensures Passes(words, count) <==> AllMarked(words, 0, count)
  {
    hide Passes, AllMarked, NoneMarked, Ones, Bit, NoBitFrom;
    NoBitPast(words, count);
    MarkedByWord(words, count);
    PassesByWord(words, count);
    if count < 32 {
      WordIsLow(words[0], count);
    } else {
      WordIsLow(words[0], 32);
      WordIsLow(words[1], count - 32);
    }
  }

  lemma PassesByWord(words: seq<nat>, count: nat)
    requires |words| == 2 && count <= MAX_REQUIRED
    ensures Passes(words, count) <==>
      if count == 0 then true
      else if count < 32 then words[0] == Ones(count)
      else words[0] == Ones(32) && (count > 32 ==> words[1] == Ones(count - 32))
  {
    hide Ones;
    assert count / 32 == if count < 32 then 0 else if count < 64 then 1 else 2;
    assert count % 32 == if count < 32 then count else if count < 64 then count - 32 else 0;
  }

  /** The test passes if and only if no required field is missing. */
  lemma PassesIff(fields: seq<Field>, words: seq<nat>, seen: set<nat>)
    requires Bitmap(fields, words, seen)
    ensures var n := RequiredBefore(fields, |fields|);
      Passes(words, if n > MAX_REQUIRED then MAX_REQUIRED else n) <==> AllCame(fields, seen)
  {
    var n := RequiredBefore(fields, |fields|);
    var count := if n > MAX_REQUIRED then MAX_REQUIRED else n;
    PassesIfMarked(words, count);
    forall i | 0 <= i < |fields| && MustCome(fields, i)
      ensures RequiredBefore(fields, i) < count
    {
      RequiredAscends(fields, i, |fields|);
    }
    if AllCame(fields, seen) {
      forall r: nat | r < count
        ensures IsMarked(words, r)
      {
        var i := RequiredAt(fields, |fields|, r);
        assert MustCome(fields, i);
      }
    }
  }

  // ---------- the loop ----------

  /** Counting the required fields with the iterator, from wherever it stands to the end. */
  method CountRequired(iter: FieldIter) returns (count: nat)
    requires iter.Valid()
    modifies iter
    ensures count == RequiredBefore(iter.fields, |iter.fields|)
  {
    var lastRequired := false;
    count := 0;
    var more := true;
    while more
      invariant iter.Valid()
      invariant !more ==> count == RequiredBefore(iter.fields, |iter.fields| - 1)
      invariant !more ==> lastRequired == iter.fields[|iter.fields| - 1].htype.Required?
      decreases more, |iter.fields| - iter.pos
    {
      count := iter.requiredIndex;
      lastRequired := iter.fields[iter.pos].htype.Required?;
      more := iter.Next();
    }
    if lastRequired {
      count := count + 1;
    }
  }

  /** pb_decode_noinit.  What it computes does not depend on where the iterator stands, and
      the bitmap stands for the set of required fields that have come. */
  method DecodeNoinit(fields: seq<Field>, input: Bytes, slots: seq<seq<Value>>) returns (r: Option<seq<seq<Value>>>)
    requires fields != [] && WellFormed(fields) && |slots| == |fields|
    ensures r == DecodeMessage(fields, input, slots)
  {
    hide DecodeField, WellFormed, Bitmap, TakeTag, Skip, FixedComplete, AllCame, Find;
    var iter := new FieldIter(fields);
    var words: seq<nat> := [0, 0];
    NothingMarked(fields);
    var rest, st := input, PbDecoders.State(slots, {}, None);
    ghost var goal := Loop(fields, input, st);
    while rest != []
      invariant iter.Valid() && iter.fields == fields && fresh(iter)
      invariant |st.slots| == |fields| && Loop(fields, rest, st) == goal
      invariant Bitmap(fields, words, st.seen)
      decreases |rest|
    {
      var tag := TakeTag(rest);
      if tag.Broken? {
        return None;
      } else if tag.Ends? {
        break;
      }
      var found := iter.FindTag(tag.number);
      if !found {
        var skipped := Skip(tag.wire, tag.rest);
        if skipped.None? {
          return None;
        }
        rest := skipped.value;
      } else {
        var i := iter.pos;
        if fields[i].htype.Required? {
          MarkCame(fields, words, st.seen, i);
          if iter.requiredIndex < MAX_REQUIRED {
            BitmapShape(fields, words, st.seen);
            words := Mark(words, iter.requiredIndex);
          }
        }
        var a := DecodeField(fields, i, tag.wire, tag.rest, st);
        if a.None? {
          return None;
        }
        SeenAfter(fields, i, tag.wire, tag.rest, st);
        rest, st := a.value.rest, a.value.state;
      }
    }
    if !FixedComplete(fields, st) {
      return None;
    }
    var count := CountRequired(iter);
    BitmapShape(fields, words, st.seen);
    PassesIff(fields, words, st.seen);
    if !Passes(words, if count > MAX_REQUIRED then MAX_REQUIRED else count) {
      return None;
    }
    r := Some(st.slots);
  }

  lemma BitmapShape(fields: seq<Field>, words: seq<nat>, seen: set<nat>)
    requires Bitmap(fields, words, seen)
    ensures |words| == 2
  {
  }

  lemma SeenAfter(fields: seq<Field>, i: nat, wire: nat, input: Bytes, st: PbDecoders.State)
    requires |st.slots| == |fields| && i < |fields| && DecodeField(fields, i, wire, input, st).Some?
    ensures DecodeField(fields, i, wire, input, st).value.state.seen ==
      if fields[i].htype.Required? then st.seen + {i} else st.seen
  {
  }

  /** pb_decode: into a struct that is reset first. */
  method Decode(fields: seq<Field>, input: Bytes) returns (r: Option<seq<seq<Value>>>)
    requires fields != [] && WellFormed(fields)
    ensures r == DecodeMessage(fields, input, Defaults(fields))
  {
    r := DecodeNoinit(fields, input, Defaults(fields));
  }
}
