/** Internal keys and their order (db/dbformat.h, db/dbformat.cc). */
module DbFormat {

  /** A user key.  The engine looks at user keys only through a comparator, that is,
      through a total order.  Every countable total order embeds into the reals, so a
      statement about all real keys covers byte strings under any comparator. */
  type UserKey = real

  newtype Byte = x: int | 0 <= x < 256

  type Bytes = seq<Byte>

  datatype ValueType = Deletion | Value

  /** kMaxSequenceNumber: eight low bits of the packed word hold the type. */
  const MAX_SEQUENCE: nat := 0xFF_FFFF_FFFF_FFFF

  datatype InternalKey = InternalKey(user: UserKey, seqno: nat, vtype: ValueType)

  datatype Entry = Entry(key: InternalKey, value: Bytes)

  /** PackSequenceAndType: the word that breaks ties between equal user keys. */
  function Tag(k: InternalKey): nat {
    k.seqno * 256 + (if k.vtype == Value then 1 else 0)
  }

  /** InternalKeyComparator::Compare(a, b) < 0: user key ascending, packed word descending. */
  predicate Less(a: InternalKey, b: InternalKey) {
    a.user < b.user || (a.user == b.user && Tag(a) > Tag(b))
  }

  predicate LessEq(a: InternalKey, b: InternalKey) {
    a == b || Less(a, b)
  }

  /** The key that `Get` seeks to: the earliest possible key of `u` at `snapshot`. */
  function LookupKey(u: UserKey, snapshot: nat): InternalKey {
    InternalKey(u, snapshot, Value)
  }

  /** The internal order is a strict total order, so it has a three-way comparison. */
  lemma LessIsTotal(a: InternalKey, b: InternalKey, c: InternalKey)
    ensures !Less(a, a)
    ensures Less(a, b) && Less(b, c) ==> Less(a, c)
    ensures a == b || Less(a, b) || Less(b, a)
  {
  }

  /** Seeking to (u, s) skips exactly the entries of `u` that are newer than `s`. */
  lemma LookupKeySplits(k: InternalKey, u: UserKey, s: nat)
    requires k.user == u
    ensures LessEq(LookupKey(u, s), k) <==> k.seqno <= s
  {
  }
}
