/** The layout of a log file (db/log_format.h): fragments of records in blocks. */
module LogFormat {
  import opened DbFormat
  import Crc32c

  const BLOCK_SIZE: nat := 32768
  const HEADER_SIZE: nat := 7

  const ZERO_TYPE: nat := 0
  const FULL_TYPE: nat := 1
  const FIRST_TYPE: nat := 2
  const MIDDLE_TYPE: nat := 3
  const LAST_TYPE: nat := 4

  /** A physical record. */
  datatype Fragment = Fragment(kind: nat, payload: Bytes)

  function Zeros(n: nat): Bytes {
    seq(n, _ => 0 as Byte)
  }

  /** Masked checksum of type and payload, length in two bytes, type. */
  function Header(f: Fragment): (h: Bytes)
    requires |f.payload| <= 0xFFFF && f.kind < 256
    ensures |h| == HEADER_SIZE
  {
    Crc32c.Stored(Crc32c.Value([f.kind as Byte] + f.payload))
    + [(|f.payload| % 256) as Byte, (|f.payload| / 256) as Byte, f.kind as Byte]
  }

  /** Where in its block the next fragment starts: a header is never split. */
  function Start(offset: nat): nat {
    if offset + HEADER_SIZE > BLOCK_SIZE then 0 else offset
  }

  function Padding(offset: nat): Bytes
    requires offset <= BLOCK_SIZE
  {
    if offset + HEADER_SIZE > BLOCK_SIZE then Zeros(BLOCK_SIZE - offset) else []
  }

  function Available(offset: nat): nat {
    BLOCK_SIZE - Start(offset) - HEADER_SIZE
  }

  function After(offset: nat, f: Fragment): nat {
    Start(offset) + HEADER_SIZE + |f.payload|
  }

  function FragmentType(begin: bool, end: bool): nat {
    if begin && end then FULL_TYPE
    else if begin then FIRST_TYPE
    else if end then LAST_TYPE
    else MIDDLE_TYPE
  }

  /** The fragments of a record whose first byte goes to this place of a block. */
  function Fragments(data: Bytes, offset: nat, begin: bool): (fs: seq<Fragment>)
    requires offset <= BLOCK_SIZE
    ensures fs != []
    decreases |data|, if Available(offset) == 0 then 1 else 0
  {
    var n := if |data| < Available(offset) then |data| else Available(offset);
    var end := |data| == n;
    var f := Fragment(FragmentType(begin, end), data[..n]);
    if end then [f] else [f] + Fragments(data[n..], After(offset, f), false)
  }

  /** No fragment crosses the end of its block. */
  predicate Fit(fs: seq<Fragment>, offset: nat) {
    fs == [] ||
    (fs[0].kind < 256 && After(offset, fs[0]) <= BLOCK_SIZE && Fit(fs[1..], After(offset, fs[0])))
  }

  function Frame(f: Fragment): (b: Bytes)
    requires |f.payload| <= 0xFFFF && f.kind < 256
    ensures |b| == HEADER_SIZE + |f.payload|
  {
    Header(f) + f.payload
  }

  /** The bytes of some fragments, from this place of a block on. */
  function Layout(fs: seq<Fragment>, offset: nat): Bytes
    requires offset <= BLOCK_SIZE && Fit(fs, offset)
  {
    if fs == [] then []
    else Padding(offset) + Frame(fs[0]) + Layout(fs[1..], After(offset, fs[0]))
  }

  /** The place in the block after some fragments. */
  function End(fs: seq<Fragment>, offset: nat): nat {
    if fs == [] then offset else End(fs[1..], After(offset, fs[0]))
  }

  lemma {:induction false} FragmentsFit(data: Bytes, offset: nat, begin: bool)
    requires offset <= BLOCK_SIZE
    ensures Fit(Fragments(data, offset, begin), offset)
    decreases |data|, if Available(offset) == 0 then 1 else 0
  {
    var n := if |data| < Available(offset) then |data| else Available(offset);
    var f := Fragment(FragmentType(begin, |data| == n), data[..n]);
    if |data| > n {
      FragmentsFit(data[n..], After(offset, f), false);
      assert Fragments(data, offset, begin)[1..] == Fragments(data[n..], After(offset, f), false);
    }
  }

  lemma {:induction false} EndInBlock(fs: seq<Fragment>, offset: nat)
    requires offset <= BLOCK_SIZE && Fit(fs, offset)
    ensures End(fs, offset) <= BLOCK_SIZE
  {
    if fs != [] {
      EndInBlock(fs[1..], After(offset, fs[0]));
    }
  }

  lemma {:induction false} FitConcat(a: seq<Fragment>, b: seq<Fragment>, offset: nat)
    requires offset <= BLOCK_SIZE && Fit(a, offset) && Fit(b, End(a, offset))
    ensures Fit(a + b, offset) && End(a + b, offset) == End(b, End(a, offset))
  {
    if a == [] {
      assert a + b == b;
    } else {
      FitConcat(a[1..], b, After(offset, a[0]));
      assert (a + b)[1..] == a[1..] + b;
    }
  }

  lemma LayoutHead(f: Fragment, rest: seq<Fragment>, offset: nat)
    requires offset <= BLOCK_SIZE && f.kind < 256 && After(offset, f) <= BLOCK_SIZE && Fit(rest, After(offset, f))
    ensures Fit([f] + rest, offset)
    ensures Layout([f] + rest, offset) == Padding(offset) + Frame(f) + Layout(rest, After(offset, f))
  {
    assert ([f] + rest)[1..] == rest;
  }

  lemma {:induction false} LayoutConcat(a: seq<Fragment>, b: seq<Fragment>, offset: nat)
    requires offset <= BLOCK_SIZE && Fit(a, offset) && Fit(b, End(a, offset)) && End(a, offset) <= BLOCK_SIZE
    ensures Fit(a + b, offset)
    ensures Layout(a + b, offset) == Layout(a, offset) + Layout(b, End(a, offset))
  {
    if a == [] {
      assert a + b == b;
    } else {
      var f, rest := a[0], a[1..];
      EndInBlock(rest, After(offset, f));
      LayoutConcat(rest, b, After(offset, f));
      FitConcat(rest, b, After(offset, f));
      LayoutConcatStep(f, rest, b, offset);
      hide Layout, Fit, End, After;
      assert a == [f] + rest;
    }
  }

  lemma LayoutConcatStep(f: Fragment, a: seq<Fragment>, b: seq<Fragment>, offset: nat)
    requires offset <= BLOCK_SIZE && f.kind < 256 && After(offset, f) <= BLOCK_SIZE
    requires var o := After(offset, f);
      && Fit(a, o) && End(a, o) <= BLOCK_SIZE && Fit(b, End(a, o)) && Fit(a + b, o)
      && Layout(a + b, o) == Layout(a, o) + Layout(b, End(a, o))
    ensures Fit([f] + a, offset) && Fit([f] + a + b, offset) && End([f] + a, offset) == End(a, After(offset, f))
    ensures Layout([f] + a + b, offset) == Layout([f] + a, offset) + Layout(b, End(a, After(offset, f)))
  {
    hide Header, Padding;
    var o := After(offset, f);
    assert ([f] + a)[1..] == a;
    assert [f] + a + b == [f] + (a + b);
    LayoutHead(f, a, offset);
    LayoutHead(f, a + b, offset);
    Associative(Padding(offset) + Frame(f), Layout(a, o), Layout(b, End(a, o)));
  }

  lemma Associative(x: Bytes, y: Bytes, z: Bytes)
    ensures x + (y + z) == x + y + z
  {
  }

  /** The fragments of a series of records. */
  function LogFragments(records: seq<Bytes>, offset: nat): (fs: seq<Fragment>)
    requires offset <= BLOCK_SIZE
    ensures Fit(fs, offset)
    decreases |records|
  {
    if records == [] then []
    else
      var fs := Fragments(records[0], offset, true);
      FragmentsFit(records[0], offset, true);
      EndInBlock(fs, offset);
      FitConcat(fs, LogFragments(records[1..], End(fs, offset)), offset);
      fs + LogFragments(records[1..], End(fs, offset))
  }

  /** The log file that holds these records. */
  function LogFile(records: seq<Bytes>): Bytes {
    Layout(LogFragments(records, 0), 0)
  }
}
