/** Wire types of nanopb, and messages that hold fields which the decoder does not know
    (pb_skip_field in pb_decode.c, pb_encode_tag_for_field in pb_encode.c). */
module PbUnknownFields {
  import opened Wrappers
  import opened DbFormat
  import opened Coding
  import opened PbMessages
  import opened PbDecoders
  import opened PbRoundTrip

  // ---------- wire types ----------

  /** The wire type says how the value that follows is laid out: 5 and 1 for exactly four and
      eight bytes, 2 for a length and that many bytes, 0 for a number. */
  lemma WireTypeTells(t: LType, v: Value)
    requires Typed(t, v)
    ensures WireOf(t) == 5 || WireOf(t) == 1 || WireOf(t) == 2 || WireOf(t) == 0
    ensures WireOf(t) == 5 ==> |ValueBytes(t, v)| == 4
    ensures WireOf(t) == 1 ==> |ValueBytes(t, v)| == 8
    ensures WireOf(t) == 2 ==> exists b: Bytes :: ValueBytes(t, v) == Varint(|b|) + b
    ensures WireOf(t) == 0 ==> exists n: nat :: n < TWO_TO_64 && ValueBytes(t, v) == Varint(n)
  {
    match t
    case Int(_) => assert ValueBytes(t, v) == Varint(Word64(v.n)) && Word64(v.n) < TWO_TO_64;
    case Uint(size) =>
      UnsignedIsItself(v.n, size);
      assert ValueBytes(t, v) == Varint(v.n);
    case Zigzag(size) =>
      SignedIsItself(v.n, size);
      ZigZagBack(v.n);
      assert ValueBytes(t, v) == Varint(ZigZag(v.n));
    case Submessage(fields) => assert ValueBytes(t, v) == Prefixed(MessageBytes(fields, v.slots, 0));
    case Bool => assert ValueBytes(t, v) == Varint(v.n);
    case Fixed32 =>
    case Fixed64 =>
    case _ => assert ValueBytes(t, v) == Prefixed(v.bytes);
  }

  lemma {:induction false} VarintSkips(n: nat, rest: Bytes)
    ensures SkipVarint(Varint(n) + rest) == Some(rest)
  {
    if n < 128 {
      assert (Varint(n) + rest)[1..] == rest;
    } else {
      VarintSkips(n / 128, rest);
      assert (Varint(n) + rest)[1..] == Varint(n / 128) + rest;
    }
  }

  /** Skipping by the wire type skips the value and nothing else. */
  lemma ValueSkips(t: LType, v: Value, rest: Bytes)
    requires Typed(t, v) && Sane(t, v)
    ensures Skip(WireOf(t), ValueBytes(t, v) + rest) == Some(rest)
  {
    WireTypeTells(t, v);
    if WireOf(t) == 0 {
      var n: nat :| ValueBytes(t, v) == Varint(n);
      VarintSkips(n, rest);
    } else if WireOf(t) == 2 {
      StringBack(Payload(t, v), rest);
    } else {
      Front(ValueBytes(t, v), rest);
    }
    hide Varint, TakeString, MessageBytes;
  }

  /** What follows the length. */
  ghost function Payload(t: LType, v: Value): (b: Bytes)
    requires Typed(t, v) && Sane(t, v) && WireOf(t) == 2
    ensures ValueBytes(t, v) == Prefixed(b) && |b| < TWO_TO_32
  {
    if t.Submessage? then MessageBytes(t.fields, v.slots, 0) else v.bytes
  }

  // ---------- fields that the decoder does not know ----------

  lemma UnknownStep(known: seq<Field>, tag: nat, wire: nat, value: Bytes, rest: Bytes, st: State)
    requires |st.slots| == |known| && 0 < tag < 0x2000_0000 && wire < 8 && Find(known, tag) == None
    requires Skip(wire, value + rest) == Some(rest)
    ensures Loop(known, TagBytes(tag, wire) + (value + rest), st) == Loop(known, rest, st)
  {
    TagBack(tag, wire, value + rest);
    assert TagBytes(tag, wire) + (value + rest) != [];
    hide TagBytes, TakeTag, Find, Skip;
  }

  lemma {:induction false} ItemsSkipped(known: seq<Field>, f: Field, items: seq<Value>, k: nat, rest: Bytes, st: State)
    requires |st.slots| == |known| && 0 < f.tag < 0x2000_0000 && Find(known, f.tag) == None
    requires k <= |items| && (forall j :: 0 <= j < |items| ==> Typed(f.ltype, items[j])) && ItemsSane(f, items, k)
    ensures Loop(known, UnpackedBytes(f, items, k) + rest, st) == Loop(known, rest, st)
    decreases |items| - k
  {
    if k == |items| {
      assert [] + rest == rest;
    } else {
      var more := UnpackedBytes(f, items, k + 1);
      ValueSkips(f.ltype, items[k], more + rest);
      UnknownStep(known, f.tag, WireOf(f.ltype), ValueBytes(f.ltype, items[k]), more + rest, st);
      Regroup(TagBytes(f.tag, WireOf(f.ltype)), ValueBytes(f.ltype, items[k]), more, rest);
      ItemsSkipped(known, f, items, k + 1, rest, st);
      hide Loop, ValueBytes, TagBytes, Skip, Typed;
    }
  }

  /** All that a field was written as is skipped. */
  lemma FieldSkipped(known: seq<Field>, f: Field, items: seq<Value>, rest: Bytes, st: State)
    requires |st.slots| == |known| && 0 < f.tag < 0x2000_0000 && Find(known, f.tag) == None
    requires SlotTyped(f, items) && SlotSane(f, items)
    ensures Loop(known, FieldBytes(f, items) + rest, st) == Loop(known, rest, st)
  {
    hide Loop, Skip, TagBytes, UnpackedBytes, PackedBytes, Find;
    if items == [] || !Written(f, items) {
      assert [] + rest == rest;
    } else if Arrayed(f.htype) && Packable(f.ltype) {
      var p := PackedBytes(f, items, 0);
      StringSkips(p, rest);
      UnknownStep(known, f.tag, STRING_WIRE, Prefixed(p), rest, st);
      Joined(TagBytes(f.tag, STRING_WIRE), Prefixed(p), rest);
    } else {
      ItemsSkipped(known, f, items, 0, rest, st);
    }
  }

  lemma StringSkips(b: Bytes, rest: Bytes)
    requires |b| < TWO_TO_32
    ensures Skip(STRING_WIRE, Prefixed(b) + rest) == Some(rest)
  {
    StringBack(b, rest);
    hide Prefixed, TakeString;
  }

  // ---------- a descriptor that lacks some fields ----------

  /** The places, before place `n`, of the fields whose tags are not dropped. */
  function Kept(fields: seq<Field>, dropped: set<nat>, n: nat): (r: seq<nat>)
    requires n <= |fields|
    ensures forall k :: 0 <= k < |r| ==> r[k] < n && fields[r[k]].tag !in dropped
    ensures forall j, k :: 0 <= j < k < |r| ==> r[j] < r[k]
  {
    if n == 0 then []
    else if fields[n - 1].tag in dropped then Kept(fields, dropped, n - 1)
    else Kept(fields, dropped, n - 1) + [n - 1]
  }

  function Select<T>(s: seq<T>, places: seq<nat>): (r: seq<T>)
    requires forall k :: 0 <= k < |places| ==> places[k] < |s|
    ensures |r| == |places| && forall k :: 0 <= k < |r| ==> r[k] == s[places[k]]
  {
    seq(|places|, k requires 0 <= k < |places| => s[places[k]])
  }

  function Without<T>(fields: seq<Field>, dropped: set<nat>, s: seq<T>): (r: seq<T>)
    requires |s| == |fields|
    ensures |r| == |Kept(fields, dropped, |fields|)|
    ensures forall k :: 0 <= k < |r| ==> r[k] == s[Kept(fields, dropped, |fields|)[k]]
  {
    Select(s, Kept(fields, dropped, |fields|))
  }

  lemma {:induction false} KeptPrefix(fields: seq<Field>, dropped: set<nat>, m: nat, n: nat)
    requires m <= n <= |fields|
    ensures Kept(fields, dropped, m) <= Kept(fields, dropped, n)
    decreases n
  {
    if m < n {
      KeptPrefix(fields, dropped, m, n - 1);
    }
  }

  lemma KnownIsFine(fields: seq<Field>, slots: seq<seq<Value>>, dropped: set<nat>)
    requires AllTyped(fields, slots) && WellFormed(fields) && OneMember(fields, slots)
    ensures var known, slots2 := Without(fields, dropped, fields), Without(fields, dropped, slots);
      AllTyped(known, slots2) && WellFormed(known) && OneMember(known, slots2)
  {
    var known, slots2 := Without(fields, dropped, fields), Without(fields, dropped, slots);
    var places := Kept(fields, dropped, |fields|);
    forall i, j | 0 <= i < |known| && 0 <= j < |known| && SameUnion(known, i, j) && slots2[i] != []
      ensures slots2[j] == []
    {
      assert SameUnion(fields, places[i], places[j]);
    }
    forall i | 0 <= i < |known|
      ensures SlotTyped(known[i], slots2[i])
    {
      assert SlotTyped(fields[places[i]], slots[places[i]]);
    }
  }

  /** Where field `i` is in the shorter descriptor, if it is there. */
  lemma PlaceOf(fields: seq<Field>, slots: seq<seq<Value>>, dropped: set<nat>, i: nat)
    requires |slots| == |fields| && i < |fields|
    ensures var j := |Kept(fields, dropped, i)|; var known := Without(fields, dropped, fields);
      && |Kept(fields, dropped, i + 1)| == (if fields[i].tag in dropped then j else j + 1) <= |known|
      && (fields[i].tag !in dropped ==> known[j] == fields[i] && Without(fields, dropped, slots)[j] == slots[i])
  {
    KeptPrefix(fields, dropped, i, |fields|);
    KeptPrefix(fields, dropped, i + 1, |fields|);
  }

  /** A field is found by the decoder if and only if it is not dropped. */
  lemma TagIsFine(fields: seq<Field>, slots: seq<seq<Value>>, dropped: set<nat>, i: nat)
    requires WellFormed(fields) && |slots| == |fields| && i < |fields|
    ensures 0 < fields[i].tag < 0x2000_0000
    ensures Find(Without(fields, dropped, fields), fields[i].tag) == None <==> fields[i].tag in dropped
  {
    if fields[i].tag !in dropped {
      PlaceOf(fields, slots, dropped, i);
    }
  }

  lemma PlaceOfEnd(fields: seq<Field>, dropped: set<nat>)
    ensures |Kept(fields, dropped, |fields|)| == |Without(fields, dropped, fields)|
  {
  }

  lemma NothingFollows(known: seq<Field>, slots2: seq<seq<Value>>, st: State)
    requires AllTyped(known, slots2) && StateAt(known, slots2, |known|, st)
    ensures |st.slots| == |known|
    ensures Loop(known, [], st) == Some(st)
  {
  }

  /** A field that the decoder knows, at place `j` of its descriptor, or one that it skips. */
  lemma NextField(known: seq<Field>, slots2: seq<seq<Value>>, j: nat, f: Field, items: seq<Value>, rest: Bytes, st: State)
    returns (st2: State)
    requires AllTyped(known, slots2) && WellFormed(known) && OneMember(known, slots2) && j <= |known|
    requires SlotTyped(f, items) && SlotSane(f, items) && 0 < f.tag < 0x2000_0000 && StateAt(known, slots2, j, st)
    requires Find(known, f.tag) == None || (j < |known| && known[j] == f && slots2[j] == items)
    ensures |st2.slots| == |known|
    ensures Find(known, f.tag) == None ==> st2 == st
    ensures Loop(known, FieldBytes(f, items) + rest, st) ==
      if Find(known, f.tag) == None || SlotClosed(f, items) then Loop(known, rest, st2) else None
    ensures Find(known, f.tag) != None && SlotClosed(f, items) ==> StateAt(known, slots2, j + 1, st2)
  {
    if Find(known, f.tag) == None {
      FieldSkipped(known, f, items, rest, st);
      st2 := st;
    } else {
      st2 := FieldReadsBack(f, known, slots2, j, rest, st);
    }
    hide *;
  }

  lemma OneField(fields: seq<Field>, slots: seq<seq<Value>>, i: nat)
    requires AllTyped(fields, slots) && i <= |fields| && AllSane(fields, slots, i)
    ensures |slots| == |fields|
    ensures if i == |fields| then MessageBytes(fields, slots, i) == []
      else
        && SlotTyped(fields[i], slots[i]) && SlotSane(fields[i], slots[i]) && AllSane(fields, slots, i + 1)
        && MessageBytes(fields, slots, i) == FieldBytes(fields[i], slots[i]) + MessageBytes(fields, slots, i + 1)
  {
  }

  lemma OneClosed(fields: seq<Field>, slots: seq<seq<Value>>, i: nat)
    requires AllTyped(fields, slots) && i <= |fields|
    ensures |slots| == |fields|
    ensures i == |fields| ==> AllClosed(fields, slots, i)
    ensures i < |fields| ==> SlotTyped(fields[i], slots[i])
    ensures i < |fields| ==>
      (AllClosed(fields, slots, i) <==> SlotClosed(fields[i], slots[i]) && AllClosed(fields, slots, i + 1))
  {
  }

  /** From field `i` on, the fields that the decoder finds are its own from place `j` on. */
  ghost predicate Matches(fields: seq<Field>, slots: seq<seq<Value>>, i: nat, known: seq<Field>,
                          slots2: seq<seq<Value>>, j: nat)
    requires |slots| == |fields| && |slots2| == |known|
    decreases |fields| - i
  {
    if i >= |fields| then j == |known|
    else
      && 0 < fields[i].tag < 0x2000_0000
      && if Find(known, fields[i].tag) == None then Matches(fields, slots, i + 1, known, slots2, j)
         else j < |known| && known[j] == fields[i] && slots2[j] == slots[i] && Matches(fields, slots, i + 1, known, slots2, j + 1)
  }

  lemma OneMatch(fields: seq<Field>, slots: seq<seq<Value>>, i: nat, known: seq<Field>, slots2: seq<seq<Value>>, j: nat)
    requires |slots| == |fields| && |slots2| == |known| && Matches(fields, slots, i, known, slots2, j)
    ensures
      if i >= |fields| then j == |known|
      else
        && 0 < fields[i].tag < 0x2000_0000
        && if Find(known, fields[i].tag) == None then Matches(fields, slots, i + 1, known, slots2, j)
           else
             && j < |known| && known[j] == fields[i] && slots2[j] == slots[i]
             && Matches(fields, slots, i + 1, known, slots2, j + 1)
  {
  }

  lemma {:induction false} WithoutMatches(fields: seq<Field>, slots: seq<seq<Value>>, dropped: set<nat>, i: nat)
    requires WellFormed(fields) && |slots| == |fields| && i <= |fields|
    ensures Matches(fields, slots, i, Without(fields, dropped, fields), Without(fields, dropped, slots),
                    |Kept(fields, dropped, i)|)
    decreases |fields| - i
  {
    hide WellFormed, Kept, Find;
    if i < |fields| {
      PlaceOf(fields, slots, dropped, i);
      TagIsFine(fields, slots, dropped, i);
      WithoutMatches(fields, slots, dropped, i + 1);
    } else {
      PlaceOfEnd(fields, dropped);
    }
  }

  lemma {:induction false} KnownFieldsReadBack(fields: seq<Field>, slots: seq<seq<Value>>, i: nat, known: seq<Field>,
                                               slots2: seq<seq<Value>>, j: nat, st: State)
    returns (end: State)
    requires AllTyped(fields, slots) && i <= |fields| && AllSane(fields, slots, i)
    requires AllTyped(known, slots2) && WellFormed(known) && OneMember(known, slots2)
    requires Matches(fields, slots, i, known, slots2, j) && j <= |known| && StateAt(known, slots2, j, st)
    ensures Loop(known, MessageBytes(fields, slots, i), st) == if AllClosed(known, slots2, j) then Some(end) else None
    ensures AllClosed(known, slots2, j) ==> StateAt(known, slots2, |known|, end)
    decreases |fields| - i
  {
    hide *;
    OneField(fields, slots, i);
    OneClosed(known, slots2, j);
    OneMatch(fields, slots, i, known, slots2, j);
    end := st;
    if i < |fields| {
      var rest := MessageBytes(fields, slots, i + 1);
      var st2 := NextField(known, slots2, j, fields[i], slots[i], rest, st);
      if Find(known, fields[i].tag) == None {
        end := KnownFieldsReadBack(fields, slots, i + 1, known, slots2, j, st);
      } else if SlotClosed(fields[i], slots[i]) {
        end := KnownFieldsReadBack(fields, slots, i + 1, known, slots2, j + 1, st2);
      }
    } else {
      NothingFollows(known, slots2, st);
    }
  }

  /** A decoder whose descriptor lacks some of the fields gets the other ones back, if and
      only if their strings are closed. */
  lemma UnknownFieldsAreSkipped(fields: seq<Field>, slots: seq<seq<Value>>, dropped: set<nat>)
    requires AllTyped(fields, slots) && SaneMessage(fields, slots)
    ensures AllTyped(Without(fields, dropped, fields), Without(fields, dropped, slots))
    ensures var known, slots2 := Without(fields, dropped, fields), Without(fields, dropped, slots);
      DecodeMessage(known, MessageBytes(fields, slots, 0), Defaults(known)) ==
        if AllClosed(known, slots2, 0) then Some(slots2) else None
  {
    var known, slots2 := Without(fields, dropped, fields), Without(fields, dropped, slots);
    KnownIsFine(fields, slots, dropped);
    var st := State(Defaults(known), {}, None);
    assert StateAt(known, slots2, 0, st);
    WithoutMatches(fields, slots, dropped, 0);
    var end := KnownFieldsReadBack(fields, slots, 0, known, slots2, 0, st);
    if AllClosed(known, slots2, 0) {
      assert end.slots == slots2;
    }
    hide MessageBytes, Loop;
  }
}
