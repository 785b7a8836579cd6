/** The bytes of a version edit (db/version_edit.cc): fields with tags, in the order EncodeTo
    writes them, and the loop of DecodeFrom that takes them in any order. */
module EditCodec {
  import opened Wrappers
  import opened DbFormat
  import opened Coding
  import opened Versions

  /** FileMetaData, with the bounds as the bytes of the internal keys. */
  datatype FileMeta = FileMeta(number: nat, size: nat, smallest: Bytes, largest: Bytes)

  datatype Field =
    | Comparator(name: Bytes)
    | LogNumber(number: nat)
    | PrevLogNumber(number: nat)
    | NextFile(number: nat)
    | LastSequence(number: nat)
    | CompactPointer(level: nat, key: Bytes)
    | DeletedFile(level: nat, number: nat)
    | NewFile(level: nat, file: FileMeta)

  const COMPARATOR: nat := 1
  const LOG_NUMBER: nat := 2
  const NEXT_FILE: nat := 3
  const LAST_SEQUENCE: nat := 4
  const COMPACT_POINTER: nat := 5
  const DELETED_FILE: nat := 6
  const NEW_FILE: nat := 7
  const PREV_LOG_NUMBER: nat := 9

  /** What the types of the fields allow, and sizes that a length can carry. */
  predicate Fits(f: Field) {
    match f
    case Comparator(name) => |name| < TWO_TO_32
    case CompactPointer(level, key) => level < NUM_LEVELS && |key| < TWO_TO_32
    case DeletedFile(level, number) => level < NUM_LEVELS && number < TWO_TO_64
    case NewFile(level, file) => level < NUM_LEVELS && FileFits(file)
    case _ => f.number < TWO_TO_64
  }

  predicate AllFit(fields: seq<Field>) {
    forall i :: 0 <= i < |fields| ==> Fits(fields[i])
  }

  predicate FileFits(m: FileMeta) {
    m.number < TWO_TO_64 && m.size < TWO_TO_64 && |m.smallest| < TWO_TO_32 && |m.largest| < TWO_TO_32
  }

  function FileBytes(m: FileMeta): Bytes {
    Varint(m.number) + (Varint(m.size) + (LengthPrefixed(m.smallest) + LengthPrefixed(m.largest)))
  }

  function TagOf(f: Field): nat {
    match f
    case Comparator(_) => COMPARATOR
    case LogNumber(_) => LOG_NUMBER
    case PrevLogNumber(_) => PREV_LOG_NUMBER
    case NextFile(_) => NEXT_FILE
    case LastSequence(_) => LAST_SEQUENCE
    case CompactPointer(_, _) => COMPACT_POINTER
    case DeletedFile(_, _) => DELETED_FILE
    case NewFile(_, _) => NEW_FILE
  }

  /** A field behind its tag. */
  function Payload(f: Field): Bytes {
    match f
    case Comparator(name) => LengthPrefixed(name)
    case CompactPointer(level, key) => Varint(level) + LengthPrefixed(key)
    case DeletedFile(level, number) => Varint(level) + Varint(number)
    case NewFile(level, file) => Varint(level) + FileBytes(file)
    case _ => Varint(f.number)
  }

  function FieldBytes(f: Field): Bytes {
    Varint(TagOf(f)) + Payload(f)
  }

  function AllBytes(fields: seq<Field>): Bytes {
    if fields == [] then [] else FieldBytes(fields[0]) + AllBytes(fields[1..])
  }

  // ---------- reading ----------

  function TakeLevel(input: Bytes): (r: Option<Taken>)
    ensures r.Some? ==> |r.value.rest| < |input|
  {
    var n := Take32(input);
    if n.None? || n.value.value >= NUM_LEVELS then None else n
  }

  datatype TakenFile = TakenFile(file: FileMeta, rest: Bytes)

  function TakeFile(input: Bytes): (r: Option<TakenFile>)
    ensures r.Some? ==> |r.value.rest| < |input|
  {
    var number := Take64(input);
    if number.None? then None
    else
      var size := Take64(number.value.rest);
      if size.None? then None
      else
        var smallest := TakeSlice(size.value.rest);
        if smallest.None? then None
        else
          var largest := TakeSlice(smallest.value.rest);
          if largest.None? then None
          else
            var m := FileMeta(number.value.value, size.value.value, smallest.value.slice, largest.value.slice);
            Some(TakenFile(m, largest.value.rest))
  }

  /** A field, or the name of what is missing. */
  datatype Item = Item(field: Field, rest: Bytes) | Missing(what: string)

  function TakeField(tag: nat, input: Bytes): (r: Item)
    ensures r.Item? ==> |r.rest| < |input|
  {
    if tag == COMPARATOR then
      var s := TakeSlice(input);
      if s.None? then Missing("comparator name") else Item(Comparator(s.value.slice), s.value.rest)
    else if tag == LOG_NUMBER then
      var n := Take64(input);
      if n.None? then Missing("log number") else Item(LogNumber(n.value.value), n.value.rest)
    else if tag == PREV_LOG_NUMBER then
      var n := Take64(input);
      if n.None? then Missing("previous log number") else Item(PrevLogNumber(n.value.value), n.value.rest)
    else if tag == NEXT_FILE then
      var n := Take64(input);
      if n.None? then Missing("next file number") else Item(NextFile(n.value.value), n.value.rest)
    else if tag == LAST_SEQUENCE then
      var n := Take64(input);
      if n.None? then Missing("last sequence number") else Item(LastSequence(n.value.value), n.value.rest)
    else if tag == COMPACT_POINTER then
      var l := TakeLevel(input);
      if l.None? then Missing("compaction pointer")
      else
        var s := TakeSlice(l.value.rest);
        if s.None? then Missing("compaction pointer")
        else Item(CompactPointer(l.value.value, s.value.slice), s.value.rest)
    else if tag == DELETED_FILE then
      var l := TakeLevel(input);
      if l.None? then Missing("deleted file")
      else
        var n := Take64(l.value.rest);
        if n.None? then Missing("deleted file") else Item(DeletedFile(l.value.value, n.value.value), n.value.rest)
    else if tag == NEW_FILE then
      var l := TakeLevel(input);
      if l.None? then Missing("new-file entry")
      else
        var m := TakeFile(l.value.rest);
        if m.None? then Missing("new-file entry") else Item(NewFile(l.value.value, m.value.file), m.value.rest)
    else Missing("unknown tag")
  }

  /** The fields up to the first that is broken, and the complaint about that one. */
  datatype Scanned = Scanned(fields: seq<Field>, complaint: Option<string>)

  function Then(f: Field, more: Scanned): Scanned {
    Scanned([f] + more.fields, more.complaint)
  }

  function Scan(input: Bytes): Scanned
    decreases |input|
  {
    var tag := Take32(input);
    if tag.None? then Scanned([], if input == [] then None else Some("invalid tag"))
    else
      match TakeField(tag.value.value, tag.value.rest)
      case Missing(what) => Scanned([], Some(what))
      case Item(field, rest) => Then(field, Scan(rest))
  }

  // ---------- a field reads back ----------

  lemma Regroup(a: Bytes, b: Bytes, rest: Bytes)
    ensures a + b + rest == a + (b + rest)
  {
  }

  lemma TakeFileBack(m: FileMeta, rest: Bytes)
    requires FileFits(m)
    ensures TakeFile(FileBytes(m) + rest) == Some(TakenFile(m, rest))
  {
    hide Varint, LengthPrefixed, Take64, TakeSlice;
    var a, b, c, d := Varint(m.number), Varint(m.size), LengthPrefixed(m.smallest), LengthPrefixed(m.largest);
    Regroup(a, b + (c + d), rest);
    Regroup(b, c + d, rest);
    Regroup(c, d, rest);
    Take64Back(m.number, b + (c + (d + rest)));
    Take64Back(m.size, c + (d + rest));
    SliceRoundTrip(m.smallest, d + rest);
    SliceRoundTrip(m.largest, rest);
  }

  lemma TakeFieldBack(f: Field, rest: Bytes)
    requires Fits(f)
    ensures TakeField(TagOf(f), Payload(f) + rest) == Item(f, rest)
  {
    hide Varint, LengthPrefixed, Take64, Take32, TakeSlice, TakeFile, FileBytes, FileFits;
    match f
    case Comparator(name) =>
      SliceRoundTrip(name, rest);
    case CompactPointer(level, key) =>
      Regroup(Varint(level), LengthPrefixed(key), rest);
      Take32Back(level, LengthPrefixed(key) + rest);
      SliceRoundTrip(key, rest);
    case DeletedFile(level, number) =>
      Regroup(Varint(level), Varint(number), rest);
      Take32Back(level, Varint(number) + rest);
      Take64Back(number, rest);
    case NewFile(level, file) =>
      Regroup(Varint(level), FileBytes(file), rest);
      Take32Back(level, FileBytes(file) + rest);
      TakeFileBack(file, rest);
    case _ =>
      Take64Back(f.number, rest);
  }

  /** Fields in any order read back as they were written. */
  lemma {:induction false} ScanBack(fields: seq<Field>)
    requires AllFit(fields)
    ensures Scan(AllBytes(fields)) == Scanned(fields, None)
  {
    hide Fits, Varint, Payload, TakeField, TagOf;
    if fields == [] {
      assert Take32([]).None?;
    } else {
      var f, rest := fields[0], AllBytes(fields[1..]);
      ScanBack(fields[1..]);
      Regroup(Varint(TagOf(f)), Payload(f), rest);
      TagFits(f);
      Take32Back(TagOf(f), Payload(f) + rest);
      TakeFieldBack(f, rest);
    }
  }

  lemma TagFits(f: Field)
    ensures TagOf(f) < TWO_TO_32
  {
  }

  // ---------- the edit ----------

  /** The values of an edit; `None` stands for a cleared `has_` flag. */
  datatype Edit = Edit(comparator: Option<Bytes>, logNumber: Option<nat>, prevLogNumber: Option<nat>,
                       nextFile: Option<nat>, lastSequence: Option<nat>, compactPointers: seq<(nat, Bytes)>,
                       deletedFiles: set<(nat, nat)>, newFiles: seq<(nat, FileMeta)>)

  const EMPTY_EDIT := Edit(None, None, None, None, None, [], {}, [])

  /** Clear leaves the compaction pointers as they are. */
  function Cleared(e: Edit): Edit {
    EMPTY_EDIT.(compactPointers := e.compactPointers)
  }

  function ApplyField(e: Edit, f: Field): Edit {
    match f
    case Comparator(name) => e.(comparator := Some(name))
    case LogNumber(n) => e.(logNumber := Some(n))
    case PrevLogNumber(n) => e.(prevLogNumber := Some(n))
    case NextFile(n) => e.(nextFile := Some(n))
    case LastSequence(n) => e.(lastSequence := Some(n))
    case CompactPointer(level, key) => e.(compactPointers := e.compactPointers + [(level, key)])
    case DeletedFile(level, n) => e.(deletedFiles := e.deletedFiles + {(level, n)})
    case NewFile(level, m) => e.(newFiles := e.newFiles + [(level, m)])
  }

  function ApplyFields(e: Edit, fields: seq<Field>): Edit
    decreases |fields|
  {
    if fields == [] then e else ApplyFields(ApplyField(e, fields[0]), fields[1..])
  }

  /** The optional fields, in the order of EncodeTo. */
  function Header(e: Edit): seq<Field> {
    ComparatorOf(e) + (LogNumberOf(e) + (PrevLogNumberOf(e) + (NextFileOf(e) + LastSequenceOf(e))))
  }

  function ComparatorOf(e: Edit): seq<Field> {
    if e.comparator.None? then [] else [Comparator(e.comparator.value)]
  }

  function LogNumberOf(e: Edit): seq<Field> {
    if e.logNumber.None? then [] else [LogNumber(e.logNumber.value)]
  }

  function PrevLogNumberOf(e: Edit): seq<Field> {
    if e.prevLogNumber.None? then [] else [PrevLogNumber(e.prevLogNumber.value)]
  }

  function NextFileOf(e: Edit): seq<Field> {
    if e.nextFile.None? then [] else [NextFile(e.nextFile.value)]
  }

  function LastSequenceOf(e: Edit): seq<Field> {
    if e.lastSequence.None? then [] else [LastSequence(e.lastSequence.value)]
  }

  function Pointers(ps: seq<(nat, Bytes)>): seq<Field> {
    seq(|ps|, i requires 0 <= i < |ps| => CompactPointer(ps[i].0, ps[i].1))
  }

  function Deletions(ds: seq<(nat, nat)>): seq<Field> {
    seq(|ds|, i requires 0 <= i < |ds| => DeletedFile(ds[i].0, ds[i].1))
  }

  function Additions(fs: seq<(nat, FileMeta)>): seq<Field> {
    seq(|fs|, i requires 0 <= i < |fs| => NewFile(fs[i].0, fs[i].1))
  }

  /** The order in which a set of level and number pairs is walked. */
  predicate Before(a: (nat, nat), b: (nat, nat)) {
    a.0 < b.0 || (a.0 == b.0 && a.1 < b.1)
  }

  predicate IsFirst(p: (nat, nat), s: set<(nat, nat)>) {
    p in s && forall q :: q in s ==> p == q || Before(p, q)
  }

  lemma {:induction false} FirstExists(s: set<(nat, nat)>)
    requires s != {}
    ensures exists p :: IsFirst(p, s)
    decreases |s|
  {
    var a :| a in s;
    if s - {a} == {} {
      assert s == {a};
      assert IsFirst(a, s);
    } else {
      FirstExists(s - {a});
      var b :| IsFirst(b, s - {a});
      var p := if Before(a, b) then a else b;
      forall q | q in s
        ensures p == q || Before(p, q)
      {
        assert q == a || q in s - {a};
      }
      assert IsFirst(p, s);
    }
  }

  ghost function Ascending(s: set<(nat, nat)>): (r: seq<(nat, nat)>)
    ensures forall p :: p in r <==> p in s
    decreases |s|
  {
    if s == {} then [] else FirstExists(s); var p :| IsFirst(p, s); [p] + Ascending(s - {p})
  }

  lemma FirstIsNext(p: (nat, nat), s: set<(nat, nat)>)
    requires IsFirst(p, s)
    ensures Ascending(s) == [p] + Ascending(s - {p})
  {
    assert forall q :: IsFirst(q, s) ==> q == p;
  }

  /** What EncodeTo writes, field by field. */
  ghost function Fields(e: Edit): seq<Field> {
    Header(e) + Pointers(e.compactPointers) + Deletions(Ascending(e.deletedFiles)) + Additions(e.newFiles)
  }

  predicate NumberFits(n: Option<nat>) {
    n.Some? ==> n.value < TWO_TO_64
  }

  ghost predicate EditFits(e: Edit) {
    && (e.comparator.Some? ==> |e.comparator.value| < TWO_TO_32)
    && NumberFits(e.logNumber) && NumberFits(e.prevLogNumber) && NumberFits(e.nextFile) && NumberFits(e.lastSequence)
    && (forall p :: p in e.compactPointers ==> p.0 < NUM_LEVELS && |p.1| < TWO_TO_32)
    && (forall d :: d in e.deletedFiles ==> d.0 < NUM_LEVELS && d.1 < TWO_TO_64)
    && (forall f :: f in e.newFiles ==> f.0 < NUM_LEVELS && FileFits(f.1))
  }

  lemma HeaderFits(e: Edit)
    requires EditFits(e)
    ensures AllFit(Header(e))
  {
    assert AllFit(ComparatorOf(e)) && AllFit(LogNumberOf(e)) && AllFit(PrevLogNumberOf(e));
    assert AllFit(NextFileOf(e)) && AllFit(LastSequenceOf(e));
    hide ComparatorOf, LogNumberOf, PrevLogNumberOf, NextFileOf, LastSequenceOf, Fits, FileFits;
  }

  lemma FieldsFit(e: Edit)
    requires EditFits(e)
    ensures AllFit(Fields(e))
  {
    var ds := Ascending(e.deletedFiles);
    HeaderFits(e);
    assert AllFit(Pointers(e.compactPointers));
    assert AllFit(Deletions(ds)) by {
      assert forall i :: 0 <= i < |ds| ==> ds[i] in e.deletedFiles;
    }
    assert AllFit(Additions(e.newFiles));
    hide Header, Pointers, Deletions, Additions, Fits;
  }

  lemma {:induction false} ApplyInTurn(e: Edit, a: seq<Field>, b: seq<Field>)
    ensures ApplyFields(e, a + b) == ApplyFields(ApplyFields(e, a), b)
    decreases |a|
  {
    hide ApplyField;
    if a == [] {
      assert a + b == b;
    } else {
      assert (a + b)[1..] == a[1..] + b;
      ApplyInTurn(ApplyField(e, a[0]), a[1..], b);
    }
  }

  lemma {:induction false} ApplyPointers(e: Edit, ps: seq<(nat, Bytes)>)
    ensures ApplyFields(e, Pointers(ps)) == e.(compactPointers := e.compactPointers + ps)
    decreases |ps|
  {
    if ps == [] {
      assert e.compactPointers + ps == e.compactPointers;
    } else {
      assert Pointers(ps)[1..] == Pointers(ps[1..]);
      ApplyPointers(e.(compactPointers := e.compactPointers + [ps[0]]), ps[1..]);
      assert e.compactPointers + [ps[0]] + ps[1..] == e.compactPointers + ps;
    }
  }

  lemma {:induction false} ApplyDeletions(e: Edit, ds: seq<(nat, nat)>)
    ensures ApplyFields(e, Deletions(ds)) == e.(deletedFiles := e.deletedFiles + (set d | d in ds))
    decreases |ds|
  {
    if ds == [] {
      assert e.deletedFiles + (set d | d in ds) == e.deletedFiles;
    } else {
      assert Deletions(ds)[1..] == Deletions(ds[1..]);
      ApplyDeletions(e.(deletedFiles := e.deletedFiles + {ds[0]}), ds[1..]);
      assert e.deletedFiles + {ds[0]} + (set d | d in ds[1..]) == e.deletedFiles + (set d | d in ds);
    }
  }

  lemma {:induction false} ApplyAdditions(e: Edit, fs: seq<(nat, FileMeta)>)
    ensures ApplyFields(e, Additions(fs)) == e.(newFiles := e.newFiles + fs)
    decreases |fs|
  {
    if fs == [] {
      assert e.newFiles + fs == e.newFiles;
    } else {
      assert Additions(fs)[1..] == Additions(fs[1..]);
      ApplyAdditions(e.(newFiles := e.newFiles + [fs[0]]), fs[1..]);
      assert e.newFiles + [fs[0]] + fs[1..] == e.newFiles + fs;
    }
  }

  lemma ApplyNumbers(c: Edit, e: Edit)
    ensures c.comparator.None? ==> ApplyFields(c, ComparatorOf(e)) == c.(comparator := e.comparator)
    ensures c.logNumber.None? ==> ApplyFields(c, LogNumberOf(e)) == c.(logNumber := e.logNumber)
    ensures c.prevLogNumber.None? ==> ApplyFields(c, PrevLogNumberOf(e)) == c.(prevLogNumber := e.prevLogNumber)
    ensures c.nextFile.None? ==> ApplyFields(c, NextFileOf(e)) == c.(nextFile := e.nextFile)
    ensures c.lastSequence.None? ==> ApplyFields(c, LastSequenceOf(e)) == c.(lastSequence := e.lastSequence)
  {
  }

  lemma ApplyHeader(c: Edit, e: Edit)
    requires c == Cleared(c)
    ensures ApplyFields(c, Header(e)) == e.(compactPointers := c.compactPointers, deletedFiles := {}, newFiles := [])
  {
    hide ApplyFields, ComparatorOf, LogNumberOf, PrevLogNumberOf, NextFileOf, LastSequenceOf;
    var c1 := c.(comparator := e.comparator);
    var c2 := c1.(logNumber := e.logNumber);
    var c3 := c2.(prevLogNumber := e.prevLogNumber);
    var c4 := c3.(nextFile := e.nextFile);
    ApplyInTurn(c, ComparatorOf(e), LogNumberOf(e) + (PrevLogNumberOf(e) + (NextFileOf(e) + LastSequenceOf(e))));
    ApplyInTurn(c1, LogNumberOf(e), PrevLogNumberOf(e) + (NextFileOf(e) + LastSequenceOf(e)));
    ApplyInTurn(c2, PrevLogNumberOf(e), NextFileOf(e) + LastSequenceOf(e));
    ApplyInTurn(c3, NextFileOf(e), LastSequenceOf(e));
    ApplyNumbers(c, e);
    ApplyNumbers(c1, e);
    ApplyNumbers(c2, e);
    ApplyNumbers(c3, e);
    ApplyNumbers(c4, e);
  }

  /** An edit that is decoded into an object gives the encoded one, behind the compaction
      pointers that the object had before. */
  lemma EditRoundTrip(e: Edit, before: Edit)
    requires EditFits(e)
    ensures Scan(AllBytes(Fields(e))) == Scanned(Fields(e), None)
    ensures ApplyFields(Cleared(before), Fields(e))
         == e.(compactPointers := before.compactPointers + e.compactPointers)
  {
    FieldsFit(e);
    ScanBack(Fields(e));
    ListsBack(e, before);
  }

  lemma ListsBack(e: Edit, before: Edit)
    ensures ApplyFields(Cleared(before), Fields(e))
         == e.(compactPointers := before.compactPointers + e.compactPointers)
  {
    var ds := Ascending(e.deletedFiles);
    var c := Cleared(before);
    var h, p, d, f := Header(e), Pointers(e.compactPointers), Deletions(ds), Additions(e.newFiles);
    ApplyHeader(c, e);
    var c1 := e.(compactPointers := c.compactPointers, deletedFiles := {}, newFiles := []);
    ApplyPointers(c1, e.compactPointers);
    var c2 := c1.(compactPointers := before.compactPointers + e.compactPointers);
    ApplyDeletions(c2, ds);
    assert {} + (set x | x in ds) == e.deletedFiles;
    var c3 := c2.(deletedFiles := e.deletedFiles);
    ApplyAdditions(c3, e.newFiles);
    assert [] + e.newFiles == e.newFiles;
    hide Header, Pointers, Deletions, Additions, ApplyFields;
    ApplyInTurn(c, h + p + d, f);
    ApplyInTurn(c, h + p, d);
    ApplyInTurn(c, h, p);
  }

  // ---------- the object ----------

  lemma {:induction false} OneMoreField(fields: seq<Field>, f: Field)
    ensures AllBytes(fields + [f]) == AllBytes(fields) + FieldBytes(f)
    decreases |fields|
  {
    hide FieldBytes;
    if fields == [] {
      assert fields + [f] == [f];
      assert AllBytes([f]) == FieldBytes(f) + AllBytes([]);
    } else {
      assert (fields + [f])[1..] == fields[1..] + [f];
      OneMoreField(fields[1..], f);
    }
  }

  /** Whatever the bytes, no level outside the version gets in. */
  predicate Leveled(f: Field) {
    (f.CompactPointer? || f.DeletedFile? || f.NewFile?) ==> f.level < NUM_LEVELS
  }

  lemma TakenLevel(tag: nat, input: Bytes)
    ensures TakeField(tag, input).Item? ==> Leveled(TakeField(tag, input).field)
  {
    hide Take64, Take32, TakeSlice, TakeFile;
  }

  lemma {:induction false} ScannedLevels(input: Bytes)
    ensures forall f :: f in Scan(input).fields ==> Leveled(f)
    decreases |input|
  {
    hide TakeField, Take32;
    var tag := Take32(input);
    if tag.Some? {
      TakenLevel(tag.value.value, tag.value.rest);
      var item := TakeField(tag.value.value, tag.value.rest);
      if item.Item? {
        ScannedLevels(item.rest);
      }
    }
  }

  ghost predicate EditLeveled(e: Edit) {
    && (forall d :: d in e.deletedFiles ==> d.0 < NUM_LEVELS)
    && (forall f :: f in e.newFiles ==> f.0 < NUM_LEVELS)
  }

  lemma {:induction false} AppliedLevels(e: Edit, fields: seq<Field>)
    requires EditLeveled(e) && forall f :: f in fields ==> Leveled(f)
    ensures EditLeveled(ApplyFields(e, fields))
    decreases |fields|
  {
    if fields != [] {
      var f := fields[0];
      assert f in fields;
      AppliedLevel(e, f);
      AppliedLevels(ApplyField(e, f), fields[1..]);
    }
  }

  lemma AppliedLevel(e: Edit, f: Field)
    requires EditLeveled(e) && Leveled(f)
    ensures EditLeveled(ApplyField(e, f))
  {
  }

  lemma HeaderInTurn(a: seq<Field>, b: seq<Field>, c: seq<Field>, d: seq<Field>, e: seq<Field>)
    ensures [] + a + b + c + d + e == a + (b + (c + (d + e))) + Pointers([])
  {
  }

  lemma OneMoreDeletion(fields: seq<Field>, gone: seq<(nat, nat)>, p: (nat, nat))
    ensures fields + Deletions(gone) + [DeletedFile(p.0, p.1)] == fields + Deletions(gone + [p])
  {
  }

  lemma Moved(gone: seq<(nat, nat)>, p: (nat, nat), rest: seq<(nat, nat)>)
    ensures gone + ([p] + rest) == gone + [p] + rest
  {
  }

  lemma NoMoreDeletions(gone: seq<(nat, nat)>)
    ensures gone + Ascending({}) == gone
  {
  }

  class VersionEdit {
    var comparator: Option<Bytes>
    var logNumber: Option<nat>
    var prevLogNumber: Option<nat>
    var nextFile: Option<nat>
    var lastSequence: Option<nat>
    var compactPointers: seq<(nat, Bytes)>
    var deletedFiles: set<(nat, nat)>
    var newFiles: seq<(nat, FileMeta)>

    function Value(): Edit
      reads this
    {
      Edit(comparator, logNumber, prevLogNumber, nextFile, lastSequence, compactPointers, deletedFiles, newFiles)
    }

    constructor ()
      ensures Value() == EMPTY_EDIT
    {
      comparator, logNumber, prevLogNumber, nextFile, lastSequence := None, None, None, None, None;
      compactPointers, deletedFiles, newFiles := [], {}, [];
    }

    method Clear()
      modifies this
      ensures Value() == Cleared(old(Value()))
    {
      comparator, logNumber, prevLogNumber, nextFile, lastSequence := None, None, None, None, None;
      deletedFiles, newFiles := {}, [];
    }

    /** A tag and what it stands for go to the end of `dst`. */
    static method PutField(dst: Bytes, f: Field, ghost soFar: seq<Field>) returns (more: Bytes)
      requires dst == AllBytes(soFar)
      ensures more == AllBytes(soFar + [f])
    {
      OneMoreField(soFar, f);
      more := dst + FieldBytes(f);
    }

    /** An optional field. */
    static method PutIfAny(dst: Bytes, f: seq<Field>, ghost soFar: seq<Field>) returns (more: Bytes)
      requires dst == AllBytes(soFar) && |f| <= 1
      ensures more == AllBytes(soFar + f)
    {
      hide AllBytes;
      if f == [] {
        assert soFar + f == soFar;
        return dst;
      }
      assert f == [f[0]];
      more := PutField(dst, f[0], soFar);
    }

    method EncodeTo() returns (dst: Bytes)
      ensures dst == AllBytes(Fields(Value()))
    {
      hide AllBytes, FieldBytes;
      ghost var e := Value();
      dst := EncodeHeader();
      assert e.compactPointers[..0] == [];
      for i := 0 to |compactPointers|
        invariant dst == AllBytes(Header(e) + Pointers(e.compactPointers[..i]))
      {
        var (level, key) := compactPointers[i];
        dst := PutField(dst, CompactPointer(level, key), Header(e) + Pointers(e.compactPointers[..i]));
        assert Header(e) + Pointers(e.compactPointers[..i]) + [CompactPointer(level, key)]
            == Header(e) + Pointers(e.compactPointers[..i + 1]);
      }
      assert e.compactPointers[..|e.compactPointers|] == e.compactPointers;
      dst := EncodeDeletions(dst, Header(e) + Pointers(e.compactPointers));
      ghost var front := Header(e) + Pointers(e.compactPointers) + Deletions(Ascending(e.deletedFiles));
      for i := 0 to |newFiles|
        invariant dst == AllBytes(front + Additions(e.newFiles[..i]))
      {
        var (level, m) := newFiles[i];
        dst := PutField(dst, NewFile(level, m), front + Additions(e.newFiles[..i]));
        assert front + Additions(e.newFiles[..i]) + [NewFile(level, m)] == front + Additions(e.newFiles[..i + 1]);
      }
      assert e.newFiles[..|e.newFiles|] == e.newFiles;
    }

    method EncodeHeader() returns (dst: Bytes)
      ensures dst == AllBytes(Header(Value()) + Pointers([]))
    {
      var e := Value();
      dst := PutIfAny([], ComparatorOf(e), []);
      dst := PutIfAny(dst, LogNumberOf(e), [] + ComparatorOf(e));
      hide AllBytes, ComparatorOf, LogNumberOf, PrevLogNumberOf, NextFileOf, LastSequenceOf;
      dst := PutIfAny(dst, PrevLogNumberOf(e), [] + ComparatorOf(e) + LogNumberOf(e));
      dst := PutIfAny(dst, NextFileOf(e), [] + ComparatorOf(e) + LogNumberOf(e) + PrevLogNumberOf(e));
      dst := PutIfAny(dst, LastSequenceOf(e),
        [] + ComparatorOf(e) + LogNumberOf(e) + PrevLogNumberOf(e) + NextFileOf(e));
      HeaderInTurn(ComparatorOf(e), LogNumberOf(e), PrevLogNumberOf(e), NextFileOf(e), LastSequenceOf(e));
    }

    /** The set is walked in its order. */
    method EncodeDeletions(front: Bytes, ghost fields: seq<Field>) returns (dst: Bytes)
      requires front == AllBytes(fields)
      ensures dst == AllBytes(fields + Deletions(Ascending(deletedFiles)) + Additions([]))
    {
      hide AllBytes, FieldBytes;
      dst := front;
      var left := deletedFiles;
      ghost var gone: seq<(nat, nat)> := [];
      assert fields + Deletions(gone) == fields && gone + Ascending(left) == Ascending(left);
      hide Ascending, Deletions;
      while left != {}
        invariant gone + Ascending(left) == Ascending(deletedFiles)
        invariant dst == AllBytes(fields + Deletions(gone))
        decreases |left|
      {
        FirstExists(left);
        var p :| p in left && forall q :: q in left ==> p == q || Before(p, q);
        FirstIsNext(p, left);
        dst := PutField(dst, DeletedFile(p.0, p.1), fields + Deletions(gone));
        OneMoreDeletion(fields, gone, p);
        Moved(gone, p, Ascending(left - {p}));
        gone, left := gone + [p], left - {p};
      }
      NoMoreDeletions(gone);
      assert fields + Deletions(gone) == fields + Deletions(gone) + Additions([]);
    }

    method AddField(f: Field)
      modifies this
      ensures Value() == ApplyField(old(Value()), f)
    {
      match f
      case Comparator(name) => comparator := Some(name);
      case LogNumber(n) => logNumber := Some(n);
      case PrevLogNumber(n) => prevLogNumber := Some(n);
      case NextFile(n) => nextFile := Some(n);
      case LastSequence(n) => lastSequence := Some(n);
      case CompactPointer(level, key) => compactPointers := compactPointers + [(level, key)];
      case DeletedFile(level, n) => deletedFiles := deletedFiles + {(level, n)};
      case NewFile(level, m) => newFiles := newFiles + [(level, m)];
    }

    /** Over any bytes: the fields up to the first broken one are taken, and the complaint
        is about that one. */
    method DecodeFrom(src: Bytes) returns (complaint: Option<string>)
      modifies this
      ensures Value() == ApplyFields(Cleared(old(Value())), Scan(src).fields)
      ensures complaint == Scan(src).complaint
    {
      hide TakeField, Take32, ApplyField;
      Clear();
      var input := src;
      var tag := Take32(input);
      while tag.Some?
        invariant tag == Take32(input)
        invariant ApplyFields(Value(), Scan(input).fields) == ApplyFields(Cleared(old(Value())), Scan(src).fields)
        invariant Scan(input).complaint == Scan(src).complaint
        decreases |input|
      {
        var item := TakeField(tag.value.value, tag.value.rest);
        if item.Missing? {
          return Some(item.what);
        }
        AddField(item.field);
        input := item.rest;
        tag := Take32(input);
      }
      complaint := if input == [] then None else Some("invalid tag");
    }
  }
}
