/** Writing records to a log and reading them back, whole or cut short
    (db/log_writer.cc, db/log_reader.cc with initial offset 0). */
module LogFiles {
  import opened DbFormat
  import opened LogFormat
  import Crc32c
  import opened Sequences

  /** log::Writer. */
  class Writer {
    var dest: Bytes
    var blockOffset: nat
    /** The records written so far. */
    ghost var records: seq<Bytes>

    ghost predicate Valid()
      reads this
    {
      && dest == LogFile(records)
      && blockOffset == End(LogFragments(records, 0), 0)
      && blockOffset <= BLOCK_SIZE
    }

    constructor ()
      ensures Valid() && records == []
    {
      dest, blockOffset, records := [], 0, [];
    }

    /** AddRecord: emit the fragments of the record, each in what is left of a block. */
    method AddRecord(data: Bytes)
      requires Valid()
      modifies this
      ensures Valid() && records == old(records) + [data]
    {
      ghost var fs0, o0 := Fragments(data, blockOffset, true), blockOffset;
      FragmentsFit(data, blockOffset, true);
      EndInBlock(fs0, o0);
      hide LogFile, Fragments, Layout, End, Fit, Available, Emitted;
      NothingEmitted(dest, fs0, o0);
      var rest, begin := data, true;
      var more := true;
      while more
        invariant blockOffset <= BLOCK_SIZE && records == old(records)
        invariant more ==> Emitted(old(dest), fs0, o0, dest, Fragments(rest, blockOffset, begin), blockOffset)
        invariant !more ==> Emitted(old(dest), fs0, o0, dest, [], blockOffset)
        decreases more, |rest|, if Available(blockOffset) == 0 then 1 else 0
      {
        var n := EmitNext(rest, begin, old(dest), fs0, o0);
        more := n < |rest|;
        rest := rest[n..];
        begin := false;
      }
      AllEmitted(old(dest), fs0, o0, dest, blockOffset);
      RecordAppended(old(records), data);
      records := records + [data];
    }

    /** One turn of the loop: switch to a new block if no header fits, then emit as much of
        the record as does. */
    method EmitNext(rest: Bytes, begin: bool, ghost dest0: Bytes, ghost fs0: seq<Fragment>, ghost o0: nat)
      returns (n: nat)
      requires blockOffset <= BLOCK_SIZE
      requires Emitted(dest0, fs0, o0, dest, Fragments(rest, blockOffset, begin), blockOffset)
      modifies this`dest, this`blockOffset
      ensures n <= |rest| && blockOffset <= BLOCK_SIZE
      ensures n == |rest| ==> Emitted(dest0, fs0, o0, dest, [], blockOffset)
      ensures n < |rest| ==> Emitted(dest0, fs0, o0, dest, Fragments(rest[n..], blockOffset, false), blockOffset)
      ensures n > 0 || n == |rest| || (old(Available(blockOffset)) == 0 && Available(blockOffset) > 0)
    {
      hide Fragments, Layout, End, Fit, Emitted, Header;
      var leftover := BLOCK_SIZE - blockOffset;
      if leftover < HEADER_SIZE {
        PaddingEmitted(dest0, fs0, o0, dest, rest, begin, blockOffset);
        dest := dest + Zeros(leftover);
        blockOffset := 0;
      }
      var avail := BLOCK_SIZE - blockOffset - HEADER_SIZE;
      n := if |rest| < avail then |rest| else avail;
      var f := Fragment(FragmentType(begin, |rest| == n), rest[..n]);
      FragmentEmitted(dest0, fs0, o0, dest, rest, begin, blockOffset);
      dest := dest + Header(f);
      dest := dest + f.payload;
      blockOffset := blockOffset + HEADER_SIZE + n;
    }
  }

  lemma NothingEmitted(dest: Bytes, fs: seq<Fragment>, o: nat)
    requires o <= BLOCK_SIZE && Fit(fs, o)
    ensures Emitted(dest, fs, o, dest, fs, o)
  {
  }

  lemma AllEmitted(dest0: Bytes, fs0: seq<Fragment>, o0: nat, dest: Bytes, o: nat)
    requires Emitted(dest0, fs0, o0, dest, [], o)
    ensures o0 <= BLOCK_SIZE && Fit(fs0, o0) && dest == dest0 + Layout(fs0, o0) && o == End(fs0, o0)
  {
    assert dest + [] == dest;
  }

  /** What has been written, followed by the layout of what has not, is what is to be written. */
  ghost predicate Emitted(dest0: Bytes, fs0: seq<Fragment>, o0: nat, dest: Bytes, fs: seq<Fragment>, o: nat) {
    && o0 <= BLOCK_SIZE && o <= BLOCK_SIZE && Fit(fs0, o0) && Fit(fs, o)
    && dest + Layout(fs, o) == dest0 + Layout(fs0, o0)
    && End(fs, o) == End(fs0, o0)
  }

  lemma PaddingEmitted(dest0: Bytes, fs0: seq<Fragment>, o0: nat, dest: Bytes, rest: Bytes, begin: bool, o: nat)
    requires o <= BLOCK_SIZE && BLOCK_SIZE - o < HEADER_SIZE
    requires Emitted(dest0, fs0, o0, dest, Fragments(rest, o, begin), o)
    ensures Fragments(rest, 0, begin) == Fragments(rest, o, begin)
    ensures Emitted(dest0, fs0, o0, dest + Zeros(BLOCK_SIZE - o), Fragments(rest, 0, begin), 0)
  {
    var fs := Fragments(rest, o, begin);
    PaddingFirst(fs, o);
    Associative(dest, Zeros(BLOCK_SIZE - o), Layout(fs, 0));
  }

  /** At the end of a block, the layout is the padding and the layout from the next block on. */
  lemma PaddingFirst(fs: seq<Fragment>, o: nat)
    requires fs != [] && o <= BLOCK_SIZE && BLOCK_SIZE - o < HEADER_SIZE && Fit(fs, o)
    ensures Fit(fs, 0) && End(fs, 0) == End(fs, o)
    ensures Layout(fs, o) == Zeros(BLOCK_SIZE - o) + Layout(fs, 0)
  {
    Associative(Zeros(BLOCK_SIZE - o), Frame(fs[0]), Layout(fs[1..], After(0, fs[0])));
    assert Padding(0) + Frame(fs[0]) == Frame(fs[0]);
  }

  lemma FragmentEmitted(dest0: Bytes, fs0: seq<Fragment>, o0: nat, dest: Bytes, rest: Bytes, begin: bool, o: nat)
    requires o + HEADER_SIZE <= BLOCK_SIZE
    requires Emitted(dest0, fs0, o0, dest, Fragments(rest, o, begin), o)
    ensures var n := if |rest| < Available(o) then |rest| else Available(o);
      var f := Fragment(FragmentType(begin, |rest| == n), rest[..n]);
      Emitted(dest0, fs0, o0, dest + Header(f) + f.payload,
              if |rest| == n then [] else Fragments(rest[n..], After(o, f), false), After(o, f))
  {
    var n := if |rest| < Available(o) then |rest| else Available(o);
    var f := Fragment(FragmentType(begin, |rest| == n), rest[..n]);
    var fs := Fragments(rest, o, begin);
    var tail := if |rest| == n then [] else Fragments(rest[n..], After(o, f), false);
    assert fs == [f] + tail && fs[1..] == tail;
    assert Padding(o) + Frame(f) == Frame(f);
    Associative(dest, Frame(f), Layout(tail, After(o, f)));
    Associative(dest, Header(f), f.payload);
  }

  lemma {:induction false} FragmentsOfMore(records: seq<Bytes>, data: Bytes, o: nat)
    requires o <= BLOCK_SIZE
    ensures End(LogFragments(records, o), o) <= BLOCK_SIZE
    ensures LogFragments(records + [data], o) ==
      LogFragments(records, o) + Fragments(data, End(LogFragments(records, o), o), true)
    decreases |records|
  {
    hide Fragments, Fit, End;
    EndInBlock(LogFragments(records, o), o);
    if records == [] {
      NoFragments(o);
      assert [data][1..] == [];
      assert [] + [data] == [data];
    } else {
      var fs := Fragments(records[0], o, true);
      FragmentsFit(records[0], o, true);
      EndInBlock(fs, o);
      FragmentsOfMore(records[1..], data, End(fs, o));
      FitConcat(fs, LogFragments(records[1..], End(fs, o)), o);
      assert (records + [data])[1..] == records[1..] + [data];
    }
  }

  lemma NoFragments(o: nat)
    ensures End([], o) == o
  {
  }

  lemma RecordAppended(records: seq<Bytes>, data: Bytes)
    ensures var o := End(LogFragments(records, 0), 0);
      && o <= BLOCK_SIZE && Fit(Fragments(data, o, true), o)
      && LogFile(records + [data]) == LogFile(records) + Layout(Fragments(data, o, true), o)
      && End(LogFragments(records + [data], 0), 0) == End(Fragments(data, o, true), o)
  {
    FragmentsOfMore(records, data, 0);
    var o := End(LogFragments(records, 0), 0);
    FragmentsFit(data, o, true);
    LayoutConcat(LogFragments(records, 0), Fragments(data, o, true), 0);
    FitConcat(LogFragments(records, 0), Fragments(data, o, true), 0);
  }

  // ---------- reading ----------

  const EOF: nat := 5
  const BAD_RECORD: nat := 6

  function Smaller(a: int, b: int): int { if a <= b then a else b }

  /** The reader has come to place `offset` of the block at `blockStart`, the fragments `fs`
      follow there, and `buffer` holds what is left of the block in the file. */
  ghost predicate ReaderAt(file: Bytes, full: Bytes, fs: seq<Fragment>, blockStart: int, offset: nat,
                           filePos: nat, buffer: Bytes, eof: bool) {
    && file <= full
    && offset <= BLOCK_SIZE && 0 <= blockStart + offset <= filePos
    && filePos == Smaller(blockStart + BLOCK_SIZE, |file|)
    && buffer == file[blockStart + offset..filePos]
    && (eof <==> blockStart + BLOCK_SIZE > |file|)
    && Fit(fs, offset) && Kinds(fs) && full[blockStart + offset..] == Layout(fs, offset)
  }

  ghost predicate Kinds(fs: seq<Fragment>) {
    forall i :: 0 <= i < |fs| ==> FULL_TYPE <= fs[i].kind <= LAST_TYPE
  }

  /** The file ends before the first of the fragments that follow does. */
  ghost predicate CutShort(file: Bytes, fs: seq<Fragment>, blockStart: int, offset: nat)
    requires offset <= BLOCK_SIZE && Fit(fs, offset)
  {
    fs == [] || |file| < blockStart + offset + |Padding(offset)| + HEADER_SIZE + |fs[0].payload|
  }

  /** log::Reader. */
  class Reader {
    const file: Bytes
    var filePos: nat
    var buffer: Bytes
    var eof: bool
    /** Reports to the reporter: none, as long as the file is the beginning of a log. */
    var corruptions: nat
    ghost const full: Bytes
    ghost var fs: seq<Fragment>
    ghost var blockStart: int
    ghost var offset: nat

    ghost predicate Valid()
      reads this
    {
      ReaderAt(file, full, fs, blockStart, offset, filePos, buffer, eof)
    }

    constructor (file: Bytes, ghost records: seq<Bytes>)
      requires file <= LogFile(records)
      ensures Valid() && corruptions == 0
      ensures this.file == file && fs == LogFragments(records, 0) && full == LogFile(records)
      ensures offset == BLOCK_SIZE && blockStart + offset == 0 && End(fs, offset) <= BLOCK_SIZE
    {
      this.file := file;
      filePos, buffer, eof, corruptions := 0, [], false, 0;
      full := LogFile(records);
      fs := LogFragments(records, 0);
      blockStart, offset := -(BLOCK_SIZE as int), BLOCK_SIZE;
      new;
      StartOfLog(records);
    }

    /** Read the next block into the buffer, once less than a header is left of this one. */
    method FillBuffer()
      requires Valid() && |buffer| < HEADER_SIZE && !eof && End(fs, offset) <= BLOCK_SIZE
      modifies this`filePos, this`buffer, this`eof, this`blockStart, this`offset
      ensures Valid() && |buffer| == filePos - old(filePos)
      ensures |buffer| < HEADER_SIZE ==> eof
      ensures End(fs, offset) <= BLOCK_SIZE
      ensures fs != [] ==> End(fs, offset) == old(End(fs, offset)) && Position() == old(Position())
      ensures fs != [] ==> After(offset, fs[0]) == old(After(offset, fs[0]))
    {
      hide ReaderAt, Fit, Layout, End, Padding, After;
      NextBlock(file, full, fs, blockStart, offset, filePos, buffer, eof);
      buffer := [];
      var n := if BLOCK_SIZE <= |file| - filePos then BLOCK_SIZE else |file| - filePos;
      buffer := file[filePos..filePos + n];
      filePos := filePos + n;
      if |buffer| < BLOCK_SIZE {
        eof := true;
      }
      blockStart, offset := blockStart + BLOCK_SIZE, 0;
    }

    /** Where the next fragment starts in the file. */
    ghost function Position(): int
      requires offset <= BLOCK_SIZE
      reads this
    {
      blockStart + offset + |Padding(offset)|
    }

    /** ReadPhysicalRecord: the next fragment, or EOF if the file does not hold all of it. */
    method ReadPhysicalRecord() returns (kind: nat, fragment: Bytes)
      requires Valid() && End(fs, offset) <= BLOCK_SIZE
      modifies this
      ensures corruptions == old(corruptions)
      ensures kind == EOF ==>
        buffer == [] && eof && (old(fs) == [] || |file| < old(Position()) + HEADER_SIZE + |old(fs)[0].payload|)
      ensures kind != EOF ==>
        && old(fs) != [] && kind == old(fs)[0].kind && fragment == old(fs)[0].payload
        && Valid() && fs == old(fs)[1..]
        && blockStart + offset == old(Position()) + HEADER_SIZE + |fragment|
        && offset == After(old(offset), old(fs)[0]) && End(fs, offset) == old(End(fs, offset))
    {
      if |buffer| < HEADER_SIZE {
        if !eof {
          FillBuffer();
        }
      }
      if |buffer| < HEADER_SIZE {
        NoRoomForHeader(file, full, fs, blockStart, offset, filePos, buffer, eof);
        buffer := [];
        return EOF, [];
      }
      kind, fragment := ParseFragment();
    }

    /** The part of ReadPhysicalRecord that looks at the header. */
    method ParseFragment() returns (kind: nat, fragment: Bytes)
      requires Valid() && |buffer| >= HEADER_SIZE && End(fs, offset) <= BLOCK_SIZE
      modifies this
      ensures corruptions == old(corruptions)
      ensures kind == EOF ==> buffer == [] && eof && CutShort(file, old(fs), old(blockStart), old(offset))
      ensures kind != EOF ==>
        && old(fs) != [] && kind == old(fs)[0].kind && fragment == old(fs)[0].payload
        && Valid() && fs == old(fs)[1..]
        && blockStart + offset == old(blockStart) + old(offset) + HEADER_SIZE + |fragment|
        && offset == After(old(offset), old(fs)[0]) && End(fs, offset) == old(End(fs, offset))
    {
      hide ReaderAt, CutShort;
      ParsesNext(file, full, fs, blockStart, offset, filePos, buffer, eof);
      var p := ParseBuffer(buffer, eof);
      kind, fragment := p.kind, p.fragment;
      corruptions := corruptions + p.drops;
      buffer := p.rest;
      if kind != EOF {
        offset := After(offset, fs[0]);
        fs := fs[1..];
      }
    }

    lemma PositionInFile()
      requires Valid()
      ensures offset <= BLOCK_SIZE && 0 <= blockStart + offset <= |file|
    {
    }

    /** ReadRecord: put the fragments of the next record together.  `g` are its fragments. */
    method ReadRecord(ghost data: Bytes, ghost g: seq<Fragment>, ghost more: seq<Fragment>) returns (ok: bool, record: Bytes)
      requires Valid() && End(fs, offset) <= BLOCK_SIZE && fs == g + more
      requires Fit(g + more, offset)
      requires if g == [] then more == [] else IsRecord(g, data, true)
      modifies this
      ensures corruptions == old(corruptions)
      ensures ok ==> g != [] && record == data && Valid() && fs == more && End(fs, offset) == old(End(fs, offset))
      ensures ok ==> blockStart + offset == old(blockStart + offset) + Size(g, old(offset)) <= |file|
      ensures ok ==> offset == End(g, old(offset))
      ensures !ok ==> g == [] || |file| < old(blockStart + offset) + Size(g, old(offset))
    {
      hide ReaderAt, HalfRead, Progress, IsRecord, Size, Fit, End;
      PositionInFile();
      ghost var o0, p0 := offset, blockStart + offset;
      var inFragmented, scratch := false, [];
      ghost var done, left := [], g;
      if g != [] {
        ReadStarts(g, more, data, o0, p0);
      }
      while true
        invariant Valid() && End(fs, offset) <= BLOCK_SIZE && fs == left + more
        invariant corruptions == old(corruptions) && End(fs, offset) == old(End(fs, offset))
        invariant g == [] ==> left == [] == more
        invariant g != [] ==> HalfRead(data, left, inFragmented, scratch)
        invariant g != [] ==> Progress(g, done, left, o0, offset, p0, blockStart + offset)
        decreases |left|
      {
        if g != [] {
          LeftNotEmpty(data, left, inFragmented, scratch);
          RecordGrows(data, left, inFragmented, scratch);
          ProgressGrows(g, done, left, o0, offset, p0, blockStart + offset);
          assert fs[0] == left[0] && fs[1..] == left[1..] + more;
        }
        var kind, fragment := ReadPhysicalRecord();
        if kind == EOF {
          return false, [];
        }
        done, left := done + [left[0]], left[1..];
        var r := Absorb(kind, fragment, inFragmented, scratch);
        corruptions := corruptions + r.drops;
        match r {
          case Complete(d, _) =>
            ProgressEnds(g, done, left, o0, offset, p0, blockStart + offset);
            assert left + more == more;
            PositionInFile();
            return true, d;
          case Continue(inF, s, _) =>
            inFragmented, scratch := inF, s;
        }
      }
    }
  }

  /** How far into the fragments `g` the reader is. */
  ghost predicate Progress(g: seq<Fragment>, done: seq<Fragment>, left: seq<Fragment>, o0: nat, o: nat, p0: int, p: int) {
    && g == done + left && o0 <= BLOCK_SIZE && o <= BLOCK_SIZE
    && Fit(done, o0) && Fit(left, o) && o == End(done, o0) && p == p0 + Size(done, o0)
  }

  lemma ReadStarts(g: seq<Fragment>, more: seq<Fragment>, data: Bytes, o: nat, p: int)
    requires o <= BLOCK_SIZE && Fit(g + more, o) && IsRecord(g, data, true)
    ensures Progress(g, [], g, o, o, p, p) && HalfRead(data, g, false, [])
  {
    FitSplit(g, more, o);
    assert [] + g == g && data[0..] == data;
  }

  lemma {:induction false} FitSplit(a: seq<Fragment>, b: seq<Fragment>, o: nat)
    requires o <= BLOCK_SIZE && Fit(a + b, o)
    ensures Fit(a, o) && Fit(b, End(a, o)) && End(a, o) <= BLOCK_SIZE
  {
    if a == [] {
      assert [] + b == b;
    } else {
      assert (a + b)[0] == a[0] && (a + b)[1..] == a[1..] + b;
      FitSplit(a[1..], b, After(o, a[0]));
    }
  }

  lemma ProgressGrows(g: seq<Fragment>, done: seq<Fragment>, left: seq<Fragment>, o0: nat, o: nat, p0: int, p: int)
    requires Progress(g, done, left, o0, o, p0, p) && left != []
    ensures o <= BLOCK_SIZE && o0 <= BLOCK_SIZE
    ensures var p2 := p + |Padding(o)| + HEADER_SIZE + |left[0].payload|;
      && Progress(g, done + [left[0]], left[1..], o0, After(o, left[0]), p0, p2)
      && p2 <= p0 + Size(g, o0)
  {
    SizeOfMore(done, left, o0);
    assert done + [left[0]] + left[1..] == done + left;
    FitConcat(done, [left[0]], o0);
  }

  lemma ProgressEnds(g: seq<Fragment>, done: seq<Fragment>, left: seq<Fragment>, o0: nat, o: nat, p0: int, p: int)
    requires Progress(g, done, left, o0, o, p0, p) && left == []
    ensures o0 <= BLOCK_SIZE && o == End(g, o0) && p == p0 + Size(g, o0)
  {
    assert done + [] == done;
  }

  /** What ReadRecord does with one physical record. */
  datatype Absorbed = Complete(data: Bytes, drops: nat) | Continue(inFragmented: bool, scratch: Bytes, drops: nat)

  function Absorb(kind: nat, fragment: Bytes, inFragmented: bool, scratch: Bytes): Absorbed {
    if kind == FULL_TYPE then
      Complete(fragment, if inFragmented && scratch != [] then 1 else 0)
    else if kind == FIRST_TYPE then
      Continue(true, fragment, if inFragmented && scratch != [] then 1 else 0)
    else if kind == MIDDLE_TYPE then
      if !inFragmented then Continue(false, scratch, 1) else Continue(true, scratch + fragment, 0)
    else if kind == LAST_TYPE then
      if !inFragmented then Continue(false, scratch, 1) else Complete(scratch + fragment, 0)
    else if kind == BAD_RECORD then
      if inFragmented then Continue(false, [], 1) else Continue(false, scratch, 0)
    else Continue(false, [], 1)
  }

  /** The fragments carry the record, in order and with the right types. */
  ghost predicate IsRecord(g: seq<Fragment>, data: Bytes, begin: bool) {
    && g != []
    && if |g| == 1 then g[0] == Fragment(FragmentType(begin, true), data)
       else
         && g[0].kind == FragmentType(begin, false)
         && g[0].payload <= data && IsRecord(g[1..], data[|g[0].payload|..], false)
  }

  ghost predicate HalfRead(data: Bytes, left: seq<Fragment>, inFragmented: bool, scratch: Bytes) {
    && (!inFragmented ==> scratch == [])
    && scratch <= data && IsRecord(left, data[|scratch|..], !inFragmented)
  }

  lemma LeftNotEmpty(data: Bytes, left: seq<Fragment>, inFragmented: bool, scratch: Bytes)
    requires HalfRead(data, left, inFragmented, scratch)
    ensures left != []
  {
  }

  lemma RecordGrows(data: Bytes, left: seq<Fragment>, inFragmented: bool, scratch: Bytes)
    requires HalfRead(data, left, inFragmented, scratch)
    ensures var r := Absorb(left[0].kind, left[0].payload, inFragmented, scratch);
      && r.drops == 0
      && (left[1..] == [] <==> r.Complete?)
      && (r.Complete? ==> r.data == data)
      && (r.Continue? ==> HalfRead(data, left[1..], r.inFragmented, r.scratch))
  {
    assert scratch + data[|scratch|..] == data;
    if |left| > 1 {
      var p := left[0].payload;
      assert data[|scratch|..][|p|..] == data[|scratch + p|..];
    }
  }

  /** Bytes that some fragments take, with padding. */
  function Size(fs: seq<Fragment>, offset: nat): nat
    requires offset <= BLOCK_SIZE
  {
    if fs == [] || After(offset, fs[0]) > BLOCK_SIZE then 0
    else |Padding(offset)| + HEADER_SIZE + |fs[0].payload| + Size(fs[1..], After(offset, fs[0]))
  }

  lemma {:induction false} SizeOfMore(a: seq<Fragment>, b: seq<Fragment>, offset: nat)
    requires offset <= BLOCK_SIZE && Fit(a, offset) && b != [] && End(a, offset) <= BLOCK_SIZE && Fit(b, End(a, offset))
    ensures var o := End(a, offset);
      && Size(a + [b[0]], offset) == Size(a, offset) + |Padding(o)| + HEADER_SIZE + |b[0].payload|
      && End(a + [b[0]], offset) == After(o, b[0])
      && Size(a + b, offset) >= Size(a + [b[0]], offset)
  {
    if a == [] {
      assert [] + b == b && [] + [b[0]] == [b[0]];
    } else {
      SizeOfMore(a[1..], b, After(offset, a[0]));
      assert (a + b)[1..] == a[1..] + b && (a + [b[0]])[1..] == a[1..] + [b[0]];
    }
  }

  /** What a look at the header yields: the type and payload of the fragment, what stays in
      the buffer, and how often corruption is reported. */
  datatype Parsed = Parsed(kind: nat, fragment: Bytes, rest: Bytes, drops: nat)

  function ParseBuffer(buffer: Bytes, eof: bool): Parsed
    requires |buffer| >= HEADER_SIZE
  {
    var length := buffer[4] as nat + buffer[5] as nat * 256;
    var kind := buffer[6] as nat;
    if HEADER_SIZE + length > |buffer| then
      if !eof then Parsed(BAD_RECORD, [], [], 1) else Parsed(EOF, [], [], 0)
    else if kind == ZERO_TYPE && length == 0 then Parsed(BAD_RECORD, [], [], 0)
    else if Crc32c.Loaded(buffer[..4]) != Crc32c.Value(buffer[6..HEADER_SIZE + length]) then Parsed(BAD_RECORD, [], [], 1)
    else Parsed(kind, buffer[HEADER_SIZE..HEADER_SIZE + length], buffer[HEADER_SIZE + length..], 0)
  }

  /** In a log that was written and perhaps cut, the next fragment is found intact, or the
      end of the file is. */
  lemma ParsesNext(file: Bytes, full: Bytes, fs: seq<Fragment>, blockStart: int, offset: nat,
                   filePos: nat, buffer: Bytes, eof: bool)
    requires ReaderAt(file, full, fs, blockStart, offset, filePos, buffer, eof) && |buffer| >= HEADER_SIZE
    ensures fs != [] && offset <= BLOCK_SIZE && Fit(fs, offset)
    ensures var p := ParseBuffer(buffer, eof);
      && p.drops == 0
      && (p.kind == EOF ==> p.rest == [] && eof && CutShort(file, fs, blockStart, offset))
      && (p.kind != EOF ==>
        && p.kind == fs[0].kind && p.fragment == fs[0].payload
        && After(offset, fs[0]) == offset + HEADER_SIZE + |p.fragment|
        && ReaderAt(file, full, fs[1..], blockStart, After(offset, fs[0]), filePos, p.rest, eof))
  {
    hide ReaderAt, CutShort, Header, Kinds, ParseBuffer, Fit, Frame;
    BufferShowsFrame(file, full, fs, blockStart, offset, filePos, buffer, eof);
    FirstKind(fs);
    ParseIs(fs[0], buffer, eof);
    if HEADER_SIZE + |fs[0].payload| <= |buffer| {
      FragmentTaken(file, full, fs, blockStart, offset, filePos, buffer, eof);
    }
  }

  lemma ParseIs(f: Fragment, buffer: Bytes, eof: bool)
    requires |f.payload| <= 0xFFFF && FULL_TYPE <= f.kind <= LAST_TYPE && |buffer| >= HEADER_SIZE
    requires buffer[..HEADER_SIZE] == Header(f)
    requires var size := HEADER_SIZE + |f.payload|;
      (size <= |buffer| ==> buffer[..size] == Frame(f)) && (size > |buffer| ==> eof)
    ensures var size := HEADER_SIZE + |f.payload|;
      ParseBuffer(buffer, eof) ==
        if size <= |buffer| then Parsed(f.kind, f.payload, buffer[size..], 0) else Parsed(EOF, [], [], 0)
  {
    hide Header, Frame, Crc32c.Loaded, Crc32c.Value;
    var h := buffer[..HEADER_SIZE];
    HeaderTells(f, h);
    assert h[4] == buffer[4] && h[5] == buffer[5] && h[6] == buffer[6];
    if HEADER_SIZE + |f.payload| <= |buffer| {
      ChecksumAgrees(f, buffer);
    }
  }

  lemma FirstKind(fs: seq<Fragment>)
    requires Kinds(fs) && fs != []
    ensures FULL_TYPE <= fs[0].kind <= LAST_TYPE
  {
  }

  lemma BlockFinished(file: Bytes, full: Bytes, fs: seq<Fragment>, blockStart: int, offset: nat,
                      filePos: nat, buffer: Bytes, eof: bool)
    requires ReaderAt(file, full, fs, blockStart, offset, filePos, buffer, eof) && |buffer| < HEADER_SIZE && !eof
    ensures Fit(fs, 0) && full[blockStart + BLOCK_SIZE..] == Layout(fs, 0)
    ensures filePos == blockStart + BLOCK_SIZE <= |full|
    ensures fs != [] ==> End(fs, 0) == End(fs, offset) && BLOCK_SIZE - offset == |Padding(offset)|
  {
    var p := blockStart + offset;
    if fs != [] {
      PaddingFirst(fs, offset);
      var pad := Zeros(BLOCK_SIZE - offset);
      assert full[p..][|pad|..] == full[p + |pad|..];
      assert (pad + Layout(fs, 0))[|pad|..] == Layout(fs, 0);
    } else {
      assert |full[p..]| == 0;
    }
  }

  /** The next block of the file, in place of the finished one. */
  lemma NextBlock(file: Bytes, full: Bytes, fs: seq<Fragment>, blockStart: int, offset: nat,
                  filePos: nat, buffer: Bytes, eof: bool)
    requires ReaderAt(file, full, fs, blockStart, offset, filePos, buffer, eof) && |buffer| < HEADER_SIZE && !eof
    requires End(fs, offset) <= BLOCK_SIZE
    ensures filePos <= |file| && offset <= BLOCK_SIZE
    ensures var n := if BLOCK_SIZE <= |file| - filePos then BLOCK_SIZE else |file| - filePos;
      ReaderAt(file, full, fs, blockStart + BLOCK_SIZE, 0, filePos + n, file[filePos..filePos + n], n < BLOCK_SIZE)
    ensures End(fs, 0) <= BLOCK_SIZE
    ensures fs != [] ==>
      && End(fs, 0) == End(fs, offset) && After(0, fs[0]) == After(offset, fs[0])
      && blockStart + BLOCK_SIZE + |Padding(0)| == blockStart + offset + |Padding(offset)|
  {
    BlockFinished(file, full, fs, blockStart, offset, filePos, buffer, eof);
    hide Fit, Layout, Kinds;
  }

  lemma NoRoomForHeader(file: Bytes, full: Bytes, fs: seq<Fragment>, blockStart: int, offset: nat,
                        filePos: nat, buffer: Bytes, eof: bool)
    requires ReaderAt(file, full, fs, blockStart, offset, filePos, buffer, eof) && |buffer| < HEADER_SIZE && eof
    ensures CutShort(file, fs, blockStart, offset)
  {
  }

  lemma ChecksumAgrees(f: Fragment, buffer: Bytes)
    requires |f.payload| <= 0xFFFF && f.kind < 256 && HEADER_SIZE + |f.payload| <= |buffer|
    requires buffer[..HEADER_SIZE + |f.payload|] == Frame(f)
    ensures Crc32c.Loaded(buffer[..4]) == Crc32c.Value(buffer[6..HEADER_SIZE + |f.payload|])
    ensures buffer[HEADER_SIZE..HEADER_SIZE + |f.payload|] == f.payload
  {
    var size := HEADER_SIZE + |f.payload|;
    HeaderTells(f, Header(f));
    assert buffer[..4] == Header(f)[..4] by {
      assert forall i :: 0 <= i < 4 ==> buffer[i] == buffer[..size][i];
    }
    assert buffer[6..size] == buffer[..size][6..];
    assert Frame(f)[6..] == [f.kind as Byte] + f.payload;
    assert buffer[HEADER_SIZE..size] == buffer[..size][HEADER_SIZE..];
    assert Frame(f)[HEADER_SIZE..] == f.payload;
  }

  lemma FragmentTaken(file: Bytes, full: Bytes, fs: seq<Fragment>, blockStart: int, offset: nat,
                      filePos: nat, buffer: Bytes, eof: bool)
    requires ReaderAt(file, full, fs, blockStart, offset, filePos, buffer, eof)
    requires fs != [] && offset + HEADER_SIZE <= BLOCK_SIZE && HEADER_SIZE + |fs[0].payload| <= |buffer|
    ensures var size := HEADER_SIZE + |fs[0].payload|;
      && After(offset, fs[0]) == offset + size
      && ReaderAt(file, full, fs[1..], blockStart, offset + size, filePos, buffer[size..], eof)
  {
    var p := blockStart + offset;
    var size := HEADER_SIZE + |fs[0].payload|;
    TailLayout(full, p, fs, offset);
    SliceDrop(file, p, filePos, size);
    hide Fit, Layout;
    RestKinds(fs);
  }

  lemma RestKinds(fs: seq<Fragment>)
    requires fs != [] && Kinds(fs)
    ensures Kinds(fs[1..])
  {
  }

  lemma HeadOfLayout(fs: seq<Fragment>, offset: nat)
    requires fs != [] && offset + HEADER_SIZE <= BLOCK_SIZE && Fit(fs, offset)
    ensures |fs[0].payload| <= 0xFFFF && fs[0].kind < 256
    ensures var size := HEADER_SIZE + |fs[0].payload|;
      && After(offset, fs[0]) == offset + size <= BLOCK_SIZE && Fit(fs[1..], offset + size)
      && Layout(fs, offset) == Frame(fs[0]) + Layout(fs[1..], offset + size)
  {
    assert fs == [fs[0]] + fs[1..];
    LayoutHead(fs[0], fs[1..], offset);
    hide Layout, Header, Frame;
    assert Padding(offset) + Frame(fs[0]) == Frame(fs[0]);
  }

  lemma TailLayout(full: Bytes, p: nat, fs: seq<Fragment>, offset: nat)
    requires p <= |full| && fs != [] && offset + HEADER_SIZE <= BLOCK_SIZE && Fit(fs, offset) &&
      full[p..] == Layout(fs, offset)
    ensures var size := HEADER_SIZE + |fs[0].payload|;
      && p + size <= |full| && After(offset, fs[0]) == offset + size <= BLOCK_SIZE && Fit(fs[1..], offset + size)
      && full[p + size..] == Layout(fs[1..], offset + size)
  {
    hide *;
    HeadOfLayout(fs, offset);
    var size := HEADER_SIZE + |fs[0].payload|;
    DropHead(full, p, Frame(fs[0]), Layout(fs[1..], offset + size));
  }

  lemma DropHead(full: Bytes, p: nat, head: Bytes, tail: Bytes)
    requires p <= |full| && full[p..] == head + tail
    ensures p + |head| <= |full| && full[p + |head|..] == tail
  {
    DropFirst(head, tail);
    DropDrop(full, p, |head|);
  }

  lemma {:induction false} StartOfLog(records: seq<Bytes>)
    ensures var fs := LogFragments(records, 0);
      Kinds(fs) && Fit(fs, BLOCK_SIZE) && End(fs, BLOCK_SIZE) <= BLOCK_SIZE && Layout(fs, BLOCK_SIZE) == LogFile(records)
  {
    var fs := LogFragments(records, 0);
    LogKinds(records, 0);
    EndInBlock(fs, 0);
    SameFromNextBlock(fs);
    if fs != [] {
      PaddingFirst(fs, BLOCK_SIZE);
      assert Zeros(0) + Layout(fs, 0) == Layout(fs, 0);
    }
  }

  lemma SameFromNextBlock(fs: seq<Fragment>)
    requires Fit(fs, 0)
    ensures Fit(fs, BLOCK_SIZE) && (fs != [] ==> End(fs, BLOCK_SIZE) == End(fs, 0))
  {
  }

  lemma {:induction false} FragmentKinds(data: Bytes, o: nat, begin: bool)
    requires o <= BLOCK_SIZE
    ensures Kinds(Fragments(data, o, begin))
    decreases |data|, if Available(o) == 0 then 1 else 0
  {
    var n := if |data| < Available(o) then |data| else Available(o);
    if n < |data| {
      var f := Fragment(FragmentType(begin, false), data[..n]);
      FragmentKinds(data[n..], After(o, f), false);
    }
  }

  lemma {:induction false} LogKinds(records: seq<Bytes>, o: nat)
    requires o <= BLOCK_SIZE
    ensures Kinds(LogFragments(records, o))
    decreases |records|
  {
    if records != [] {
      var fs := Fragments(records[0], o, true);
      FragmentKinds(records[0], o, true);
      FragmentsFit(records[0], o, true);
      EndInBlock(fs, o);
      LogKinds(records[1..], End(fs, o));
    }
  }

  /** What is in the buffer when it holds a header. */
  lemma BufferShowsFrame(file: Bytes, full: Bytes, fs: seq<Fragment>, blockStart: int, offset: nat,
                         filePos: nat, buffer: Bytes, eof: bool)
    requires ReaderAt(file, full, fs, blockStart, offset, filePos, buffer, eof) && |buffer| >= HEADER_SIZE
    ensures fs != [] && offset + HEADER_SIZE <= BLOCK_SIZE && |fs[0].payload| <= 0xFFFF && fs[0].kind < 256
    ensures Kinds(fs) && Fit(fs, offset)
    ensures var f := fs[0]; var size := HEADER_SIZE + |f.payload|;
      && buffer[..HEADER_SIZE] == Header(f)
      && (size <= |buffer| ==> buffer[..size] == Frame(f))
      && (size > |buffer| ==> eof && CutShort(file, fs, blockStart, offset))
  {
    BufferInLayout(file, full, fs, blockStart, offset, filePos, buffer, eof);
    hide ReaderAt, Kinds, Header;
    var f := fs[0];
    LayoutStarts(fs, offset);
    FramePrefix(Frame(f), Layout(fs[1..], After(offset, f)), |buffer|);
    assert Frame(f)[..HEADER_SIZE] == Header(f);
  }

  lemma LayoutStarts(fs: seq<Fragment>, offset: nat)
    requires fs != [] && offset + HEADER_SIZE <= BLOCK_SIZE && Fit(fs, offset) && |fs[0].payload| <= 0xFFFF &&
      fs[0].kind < 256
    ensures After(offset, fs[0]) <= BLOCK_SIZE && Fit(fs[1..], After(offset, fs[0]))
    ensures Layout(fs, offset) == Frame(fs[0]) + Layout(fs[1..], After(offset, fs[0]))
  {
    hide Frame;
  }

  /** The buffer is the beginning of what is laid out from here on. */
  lemma BufferInLayout(file: Bytes, full: Bytes, fs: seq<Fragment>, blockStart: int, offset: nat,
                       filePos: nat, buffer: Bytes, eof: bool)
    requires ReaderAt(file, full, fs, blockStart, offset, filePos, buffer, eof) && |buffer| >= HEADER_SIZE
    ensures fs != [] && offset + HEADER_SIZE <= BLOCK_SIZE && |fs[0].payload| <= 0xFFFF && fs[0].kind < 256
    ensures Kinds(fs) && Fit(fs, offset) && |buffer| <= |Layout(fs, offset)| && buffer == Layout(fs, offset)[..|buffer|]
    ensures HEADER_SIZE + |fs[0].payload| > |buffer| ==> eof && CutShort(file, fs, blockStart, offset)
  {
    hide Frame;
    var p := blockStart + offset;
    assert buffer == full[p..][..|buffer|];
  }

  lemma FramePrefix(frame: Bytes, rest: Bytes, n: nat)
    requires HEADER_SIZE <= n <= |frame + rest| && HEADER_SIZE <= |frame|
    ensures (frame + rest)[..n][..HEADER_SIZE] == frame[..HEADER_SIZE]
    ensures |frame| <= n ==> (frame + rest)[..n][..|frame|] == frame
  {
  }

  /** What the header says about the fragment. */
  lemma HeaderTells(f: Fragment, b: Bytes)
    requires |f.payload| <= 0xFFFF && f.kind < 256 && b == Header(f)
    ensures b[4] as nat + b[5] as nat * 256 == |f.payload| && b[6] as nat == f.kind
    ensures Crc32c.Loaded(b[..4]) == Crc32c.Value([f.kind as Byte] + f.payload)
  {
    var crc := Crc32c.Value([f.kind as Byte] + f.payload);
    Crc32c.LoadedStored(crc);
    assert b[..4] == Crc32c.Stored(crc);
  }

  // ---------- the whole log ----------

  lemma {:induction false} FragmentsAreRecord(data: Bytes, o: nat, begin: bool)
    requires o <= BLOCK_SIZE
    ensures IsRecord(Fragments(data, o, begin), data, begin)
    decreases |data|, if Available(o) == 0 then 1 else 0
  {
    var n := if |data| < Available(o) then |data| else Available(o);
    var f := Fragment(FragmentType(begin, |data| == n), data[..n]);
    if n < |data| {
      FragmentsAreRecord(data[n..], After(o, f), false);
      assert Fragments(data, o, begin)[1..] == Fragments(data[n..], After(o, f), false);
    } else {
      assert data[..n] == data;
    }
  }

  lemma {:induction false} SizeIsLength(fs: seq<Fragment>, o: nat)
    requires o <= BLOCK_SIZE && Fit(fs, o)
    ensures Size(fs, o) == |Layout(fs, o)|
  {
    if fs != [] {
      SizeIsLength(fs[1..], After(o, fs[0]));
    }
  }

  /** Nothing depends on whether a place is at the end of a block or at the start of the next. */
  lemma BlockEndIsBlockStart(g: seq<Fragment>)
    requires g != []
    ensures Size(g, BLOCK_SIZE) == Size(g, 0) && End(g, BLOCK_SIZE) == End(g, 0)
    ensures Fit(g, BLOCK_SIZE) <==> Fit(g, 0)
  {
  }

  /** What is left to read after `k` records. */
  ghost predicate RecordsRead(records: seq<Bytes>, k: nat, fs: seq<Fragment>, offset: nat, p: int) {
    && k <= |records|
    && var o := End(LogFragments(records[..k], 0), 0);
    && o <= BLOCK_SIZE && (offset == o || (k == 0 && offset == BLOCK_SIZE))
    && fs == LogFragments(records[k..], o) && p == |LogFile(records[..k])|
  }

  /** The next record in the log. */
  lemma NextRecord(records: seq<Bytes>, k: nat, fs: seq<Fragment>, offset: nat, p: int)
    returns (g: seq<Fragment>, more: seq<Fragment>)
    requires RecordsRead(records, k, fs, offset, p)
    ensures offset <= BLOCK_SIZE && fs == g + more && Fit(g + more, offset)
    ensures k == |records| ==> g == [] == more
    ensures k < |records| ==>
      && IsRecord(g, records[k], true)
      && p + Size(g, offset) == |LogFile(records[..k + 1])|
      && RecordsRead(records, k + 1, more, End(g, offset), p + Size(g, offset))
  {
    var o := End(LogFragments(records[..k], 0), 0);
    if k == |records| {
      g, more := [], [];
    } else {
      g, more := FollowingRecord(records, k, o);
      FragmentsAreRecord(records[k], o, true);
      if offset != o {
        assert LogFragments([], 0) == [];
        BlockEndIsBlockStart(g);
        BlockEndIsBlockStart(g + more);
      }
    }
  }

  lemma FollowingRecord(records: seq<Bytes>, k: nat, o: nat) returns (g: seq<Fragment>, more: seq<Fragment>)
    requires k < |records| && o == End(LogFragments(records[..k], 0), 0) <= BLOCK_SIZE
    ensures g == Fragments(records[k], o, true) && LogFragments(records[k..], o) == g + more
    ensures Fit(g + more, o) && End(g, o) <= BLOCK_SIZE && more == LogFragments(records[k + 1..], End(g, o))
    ensures End(LogFragments(records[..k + 1], 0), 0) == End(g, o)
    ensures |LogFile(records[..k])| + Size(g, o) == |LogFile(records[..k + 1])|
  {
    g := Fragments(records[k], o, true);
    FragmentsFit(records[k], o, true);
    EndInBlock(g, o);
    assert records[k..][1..] == records[k + 1..];
    more := LogFragments(records[k + 1..], End(g, o));
    FitConcat(g, more, o);
    SizeIsLength(g, o);
    RecordAppended(records[..k], records[k]);
    assert records[..k + 1] == records[..k] + [records[k]];
  }

  lemma PrefixesGrow(records: seq<Bytes>, a: nat, b: nat)
    requires a <= b
    ensures b <= |records| ==> |LogFile(records[..a])| <= |LogFile(records[..b])|
  {
    if b <= |records| {
      PrefixIsShorter(records[..b], a);
      assert records[..b][..a] == records[..a];
    }
  }

  /** Reading a log that may have been cut at any byte: the records that the file holds
      whole, no more and no less, and no report of corruption. */
  method ReadLog(file: Bytes, ghost records: seq<Bytes>) returns (result: seq<Bytes>, corruptions: nat)
    requires file <= LogFile(records)
    ensures corruptions == 0
    ensures |result| <= |records| && result == records[..|result|]
    ensures |LogFile(result)| <= |file|
    ensures |result| < |records| ==> |file| < |LogFile(records[..|result| + 1])|
    ensures file == LogFile(records) ==> result == records
  {
    hide RecordsRead, ReaderAt, IsRecord, Size, Fit, End, LogFile;
    var reader := new Reader(file, records);
    result := [];
    ghost var k: nat := 0;
    NothingRead(records, reader.fs, reader.offset, reader.blockStart + reader.offset);
    var more := true;
    while more
      invariant k == |result| <= |records| && result == records[..k] && reader.corruptions == 0
      invariant fresh(reader) && reader.file == file
      invariant more ==> reader.Valid() && End(reader.fs, reader.offset) <= BLOCK_SIZE
      invariant more ==> RecordsRead(records, k, reader.fs, reader.offset, reader.blockStart + reader.offset)
      invariant |LogFile(result)| <= |file|
      invariant !more ==> k == |records| || |file| < |LogFile(records[..k + 1])|
      decreases |records| - k + (if more then 1 else 0), more
    {
      ghost var g, rest := NextRecord(records, k, reader.fs, reader.offset, reader.blockStart + reader.offset);
      var ok, record := reader.ReadRecord(if k < |records| then records[k] else [], g, rest);
      if ok {
        assert records[..k + 1] == records[..k] + [records[k]];
        result := result + [record];
        k := k + 1;
      } else {
        more := false;
      }
    }
    corruptions := reader.corruptions;
    if k < |records| {
      PrefixIsShorter(records, k + 1);
    } else {
      assert records[..k] == records;
    }
  }

  lemma NothingRead(records: seq<Bytes>, fs: seq<Fragment>, offset: nat, p: int)
    requires fs == LogFragments(records, 0) && offset == BLOCK_SIZE && p == 0
    ensures RecordsRead(records, 0, fs, offset, p) && |LogFile([])| == 0
  {
    assert records[0..] == records && records[..0] == [];
  }

  lemma {:induction false} PrefixIsShorter(records: seq<Bytes>, k: nat)
    requires k <= |records|
    ensures |LogFile(records[..k])| <= |LogFile(records)|
    decreases |records| - k
  {
    if k < |records| {
      RecordAppended(records[..k], records[k]);
      assert records[..k + 1] == records[..k] + [records[k]];
      PrefixIsShorter(records, k + 1);
    } else {
      assert records[..k] == records;
    }
  }
}
