/** Byte-wise order and the order of encoded internal keys, with the short keys that go
    between two others (util/comparator.cc, db/dbformat.cc). */
module Comparators {
  import opened DbFormat
  import opened Coding

  /** BytewiseComparator: memcmp, then the shorter first. */
  predicate LexLess(a: Bytes, b: Bytes)
    decreases |a|
  {
    b != [] && (a == [] || a[0] < b[0] || (a[0] == b[0] && LexLess(a[1..], b[1..])))
  }

  lemma {:induction false} LexTotal(a: Bytes, b: Bytes)
    ensures a == b || LexLess(a, b) || LexLess(b, a)
    ensures !(LexLess(a, b) && LexLess(b, a)) && !LexLess(a, a)
    decreases |a|
  {
    if a != [] {
      LexTotal(a[1..], a[1..]);
      if b != [] && a[0] == b[0] {
        LexTotal(a[1..], b[1..]);
        if a[1..] == b[1..] {
          assert a == [a[0]] + a[1..] && b == [b[0]] + b[1..];
        }
      }
    }
  }

  lemma {:induction false} LexTransitive(a: Bytes, b: Bytes, c: Bytes)
    requires LexLess(a, b) && LexLess(b, c)
    ensures LexLess(a, c)
    decreases |a|
  {
    if a != [] && a[0] == b[0] == c[0] {
      LexTransitive(a[1..], b[1..], c[1..]);
    }
  }

  /** Two strings are in the order of the first bytes that differ. */
  lemma {:induction false} LexAtDifference(a: Bytes, b: Bytes, d: nat)
    requires d < |a| && d < |b| && a[..d] == b[..d] && a[d] < b[d]
    ensures LexLess(a, b)
    decreases d
  {
    if d > 0 {
      assert a[0] == a[..d][0] == b[..d][0] == b[0];
      assert a[1..][..d - 1] == a[..d][1..] == b[..d][1..] == b[1..][..d - 1];
      LexAtDifference(a[1..], b[1..], d - 1);
    }
  }

  /** The beginning of a string, with the byte at `d` one higher. */
  function Raised(s: Bytes, d: nat): (r: Bytes)
    requires d < |s| && s[d] < 0xff
    ensures |r| == d + 1 && r[..d] == s[..d] && r[d] == s[d] + 1
  {
    s[..d] + [s[d] + 1]
  }

  /** Where the strings differ, there is a byte between theirs. */
  predicate LeavesRoom(start: Bytes, limit: Bytes) {
    var d := Common(start, limit);
    d < |start| && d < |limit| && start[d] < 0xff && start[d] + 1 < limit[d]
  }

  function Separator(start: Bytes, limit: Bytes): Bytes {
    if LeavesRoom(start, limit) then Raised(start, Common(start, limit)) else start
  }

  /** FindShortestSeparator: where the strings differ, if there is room between them, the
      string is cut and raised; otherwise it stays. */
  method FindShortestSeparator(start: Bytes, limit: Bytes) returns (r: Bytes)
    ensures r == Separator(start, limit)
  {
    var minLength := if |start| < |limit| then |start| else |limit|;
    var diffIndex := 0;
    while diffIndex < minLength && start[diffIndex] == limit[diffIndex]
      invariant diffIndex <= minLength && start[..diffIndex] == limit[..diffIndex]
    {
      diffIndex := diffIndex + 1;
    }
    CommonIs(start, limit, diffIndex);
    r := start;
    if diffIndex < minLength {
      var diffByte := start[diffIndex];
      if diffByte < 0xff && diffByte + 1 < limit[diffIndex] {
        r := start[..diffIndex] + [diffByte + 1];
      }
    }
  }

  /** The separator lies at or after the first string and before the second, if that is
      possible; and if it was changed at all, no shorter string does. */
  lemma SeparatorIsShortest(start: Bytes, limit: Bytes, s: Bytes)
    ensures var r := Separator(start, limit);
      && (r == start || (LexLess(start, r) && LexLess(r, limit) && |r| <= |start|))
      && (r != start && |s| < |r| ==> LexLess(s, start) || !LexLess(s, limit))
  {
    hide LexLess;
    var r := Separator(start, limit);
    if LeavesRoom(start, limit) {
      var d := Common(start, limit);
      LexAtDifference(start, r, d);
      LexAtDifference(r, limit, d);
      if |s| <= d {
        NothingShorter(s, start, limit, d);
      }
    }
  }

  /** A string no longer than what two others have in common is before both or not before
      the second. */
  lemma {:induction false} NothingShorter(s: Bytes, a: Bytes, b: Bytes, d: nat)
    requires |s| <= d < |a| && d < |b| && a[..d] == b[..d]
    ensures LexLess(s, a) || !LexLess(s, b)
    decreases |s|
  {
    if s != [] {
      assert a[..d][0] == b[..d][0];
      assert a[1..][..d - 1] == a[..d][1..] == b[..d][1..] == b[1..][..d - 1];
      NothingShorter(s[1..], a[1..], b[1..], d - 1);
    }
  }

  /** The place of the first byte that can be raised. */
  function Raisable(key: Bytes): (i: nat)
    ensures i <= |key| && (forall j :: 0 <= j < i ==> key[j] == 0xff) && (i < |key| ==> key[i] < 0xff)
  {
    if key == [] || key[0] != 0xff then 0 else 1 + Raisable(key[1..])
  }

  function Successor(key: Bytes): Bytes {
    if Raisable(key) < |key| then Raised(key, Raisable(key)) else key
  }

  /** FindShortSuccessor: the first byte that is not 0xff is raised and the rest cut off. */
  method FindShortSuccessor(key: Bytes) returns (r: Bytes)
    ensures r == Successor(key)
  {
    for i := 0 to |key|
      invariant forall j :: 0 <= j < i ==> key[j] == 0xff
    {
      var byte := key[i];
      if byte != 0xff {
        r := key[..i] + [byte + 1];
        assert Raisable(key) == i;
        return;
      }
    }
    r := key;
  }

  /** The successor is not below the string, no shorter string is, and only a run of 0xff
      is left alone. */
  lemma SuccessorIsShortest(key: Bytes, s: Bytes)
    ensures var r := Successor(key);
      && (r == key || (LexLess(key, r) && |r| <= |key|))
      && (r == key <==> forall i :: 0 <= i < |key| ==> key[i] == 0xff)
      && (|s| < |r| ==> LexLess(s, key))
  {
    hide LexLess;
    var r := Successor(key);
    var i := Raisable(key);
    if i < |key| {
      LexAtDifference(key, r, i);
      assert key[i] != 0xff && r[i] != key[i];
    }
    if |s| < |r| {
      BelowTop(s, key);
    }
  }

  /** A shorter string is below a run of 0xff. */
  lemma {:induction false} BelowTop(s: Bytes, key: Bytes)
    requires |s| < |key| && forall j :: 0 <= j < |s| ==> key[j] == 0xff
    ensures LexLess(s, key)
    decreases |s|
  {
    if s != [] {
      BelowTop(s[1..], key[1..]);
    }
  }

  /** ExtractUserKey and the packed word; an internal key has at least eight bytes. */
  function UserPart(k: Bytes): Bytes {
    if |k| < 8 then [] else k[..|k| - 8]
  }

  function TagPart(k: Bytes): nat {
    if |k| < 8 then 0 else DecodeFixed64(k[|k| - 8..])
  }

  predicate IsInternal(k: Bytes) {
    |k| >= 8
  }

  function InternalBytes(user: Bytes, tag: nat): (k: Bytes)
    requires tag < TWO_TO_64
    ensures IsInternal(k)
  {
    user + EncodeFixed64(tag)
  }

  lemma InternalParts(user: Bytes, tag: nat)
    requires tag < TWO_TO_64
    ensures UserPart(InternalBytes(user, tag)) == user && TagPart(InternalBytes(user, tag)) == tag
  {
    var k := InternalBytes(user, tag);
    Fixed64RoundTrip(tag);
    hide EncodeFixed64, DecodeFixed64;
    assert k[..|k| - 8] == user && k[|k| - 8..] == EncodeFixed64(tag);
  }

  /** InternalKeyComparator::Compare(a, b) < 0. */
  predicate InternalLess(a: Bytes, b: Bytes) {
    LexLess(UserPart(a), UserPart(b)) || (UserPart(a) == UserPart(b) && TagPart(a) > TagPart(b))
  }

  lemma InternalOrder(a: Bytes, b: Bytes, c: Bytes)
    ensures !InternalLess(a, a)
    ensures InternalLess(a, b) && InternalLess(b, c) ==> InternalLess(a, c)
    ensures InternalLess(a, b) && !InternalLess(c, b) ==> InternalLess(a, c)
    ensures !InternalLess(b, a) && InternalLess(b, c) ==> InternalLess(a, c)
  {
    hide TagPart, UserPart;
    LexTotal(UserPart(a), UserPart(a));
    LexTotal(UserPart(a), UserPart(b));
    LexTotal(UserPart(b), UserPart(c));
    LexTotal(UserPart(a), UserPart(c));
    Chains(UserPart(a), UserPart(b), UserPart(c));
  }

  lemma Chains(a: Bytes, b: Bytes, c: Bytes)
    ensures LexLess(a, b) && LexLess(b, c) ==> LexLess(a, c)
  {
    if LexLess(a, b) && LexLess(b, c) {
      LexTransitive(a, b, c);
    }
  }

  /** PackSequenceAndType(kMaxSequenceNumber, kValueTypeForSeek): before all entries of the
      same user key. */
  const FIRST_TAG: nat := MAX_SEQUENCE * 256 + 1

  /** No sequence number and type pack to more. */
  lemma FirstTagIsGreatest(k: InternalKey)
    requires k.seqno <= MAX_SEQUENCE
    ensures Tag(k) <= FIRST_TAG && (Tag(k) == FIRST_TAG <==> k.seqno == MAX_SEQUENCE && k.vtype == Value)
    ensures MAX_SEQUENCE * 256 + 255 == TWO_TO_64 - 1
  {
  }

  /** A shorter user key takes the place of the old one, before all of its entries. */
  function Shortened(key: Bytes, user: Bytes): Bytes {
    if |user| < |UserPart(key)| then InternalBytes(user, FIRST_TAG) else key
  }

  /** InternalKeyComparator::FindShortestSeparator: unless it returns the key itself, the
      user key is a shorter one that lies strictly between the two. */
  method InternalSeparator(start: Bytes, limit: Bytes) returns (r: Bytes)
    requires IsInternal(start) && IsInternal(limit)
    ensures IsInternal(r) && r == Shortened(start, Separator(UserPart(start), UserPart(limit)))
    ensures r == start ||
      (LexLess(UserPart(start), UserPart(r)) && LexLess(UserPart(r), UserPart(limit)) && |r| < |start|)
  {
    var userStart := UserPart(start);
    var tmp := FindShortestSeparator(userStart, UserPart(limit));
    SeparatorIsShortest(userStart, UserPart(limit), []);
    r := start;
    LexTotal(userStart, userStart);
    if |tmp| < |userStart| && LexLess(userStart, tmp) {
      r := InternalBytes(tmp, FIRST_TAG);
      InternalParts(tmp, FIRST_TAG);
    }
  }

  /** InternalKeyComparator::FindShortSuccessor. */
  method InternalSuccessor(key: Bytes) returns (r: Bytes)
    requires IsInternal(key)
    ensures IsInternal(r) && r == Shortened(key, Successor(UserPart(key)))
    ensures r == key || (LexLess(UserPart(key), UserPart(r)) && |r| < |key|)
  {
    var user := UserPart(key);
    var tmp := FindShortSuccessor(user);
    SuccessorIsShortest(user, []);
    r := key;
    LexTotal(user, user);
    if |tmp| < |user| && LexLess(user, tmp) {
      r := InternalBytes(tmp, FIRST_TAG);
      InternalParts(tmp, FIRST_TAG);
    }
  }
}
