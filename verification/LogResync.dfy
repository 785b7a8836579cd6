/** What the log reader makes of any physical records, also of those that damage or old
    writers leave behind: it hands out just the runs that are whole, and reports the rest. */
module LogResync {
  import opened DbFormat
  import opened LogFormat
  import opened LogFiles

  /** Records handed out, and corruptions reported. */
  datatype Reading = Reading(records: seq<Bytes>, drops: nat)

  function Add(record: seq<Bytes>, drops: nat, r: Reading): Reading {
    Reading(record + r.records, drops + r.drops)
  }

  /** ReadRecord, called again and again until the end of the file. */
  function ReadAll(fs: seq<Fragment>, inFragmented: bool, scratch: Bytes): Reading {
    if fs == [] then Reading([], 0)
    else
      match Absorb(fs[0].kind, fs[0].payload, inFragmented, scratch)
      case Complete(data, drops) => Add([data], drops, ReadAll(fs[1..], false, []))
      case Continue(inF, s, drops) => Add([], drops, ReadAll(fs[1..], inF, s))
  }

  /** The fragments in the middle of a record that come first. */
  function Middles(fs: seq<Fragment>): (m: nat)
    ensures m <= |fs| && forall i :: 0 <= i < m ==> fs[i].kind == MIDDLE_TYPE
    ensures m < |fs| ==> fs[m].kind != MIDDLE_TYPE
  {
    if fs == [] || fs[0].kind != MIDDLE_TYPE then 0 else 1 + Middles(fs[1..])
  }

  function Payloads(fs: seq<Fragment>): Bytes {
    if fs == [] then [] else fs[0].payload + Payloads(fs[1..])
  }

  predicate Starts(f: Fragment) {
    f.kind == FULL_TYPE || f.kind == FIRST_TYPE
  }

  /** The same by looking ahead.  A record is a full fragment, or a first one, any number of
      middle ones and a last one, with nothing in between.  What does not belong to a record
      is reported; so is a record that is broken off, unless no byte of it has come, or the
      file ends there. */
  function Parse(fs: seq<Fragment>): Reading
    decreases |fs|, 0
  {
    if fs == [] then Reading([], 0)
    else if fs[0].kind == FULL_TYPE then Add([fs[0].payload], 0, Parse(fs[1..]))
    else if fs[0].kind == FIRST_TYPE then ParseRun(fs[1..], fs[0].payload)
    else Add([], if fs[0].kind == BAD_RECORD then 0 else 1, Parse(fs[1..]))
  }

  function ParseRun(fs: seq<Fragment>, first: Bytes): Reading
    decreases |fs|, 1
  {
    var m := Middles(fs);
    var data := first + Payloads(fs[..m]);
    if m == |fs| then Reading([], 0)
    else if fs[m].kind == LAST_TYPE then Add([data + fs[m].payload], 0, Parse(fs[m + 1..]))
    else if Starts(fs[m]) then Add([], if data == [] then 0 else 1, Parse(fs[m..]))
    else Add([], 1, Parse(fs[m + 1..]))
  }

  lemma {:induction false} RunIsRead(fs: seq<Fragment>, scratch: Bytes)
    ensures ReadAll(fs, true, scratch) == ParseRun(fs, scratch)
    decreases |fs|, 1
  {
    if fs != [] {
      if fs[0].kind == MIDDLE_TYPE {
        RunIsRead(fs[1..], scratch + fs[0].payload);
        OneMoreMiddle(fs, scratch);
      } else {
        assert fs[..0] == [] && scratch + [] == scratch && fs[0..] == fs;
        if Starts(fs[0]) {
          StartIsRead(fs, scratch);
          ReadsAsParsed(fs);
        } else {
          ReadsAsParsed(fs[1..]);
        }
      }
    }
  }

  /** What has come so far matters for the reports only when a record starts. */
  lemma StartIsRead(fs: seq<Fragment>, scratch: Bytes)
    requires fs != [] && Starts(fs[0])
    ensures ReadAll(fs, true, scratch) == Add([], if scratch == [] then 0 else 1, ReadAll(fs, false, []))
  {
  }

  lemma OneMoreMiddle(fs: seq<Fragment>, first: Bytes)
    requires fs != [] && fs[0].kind == MIDDLE_TYPE
    ensures ParseRun(fs, first) == ParseRun(fs[1..], first + fs[0].payload)
  {
    hide Parse;
    var m := Middles(fs[1..]);
    assert fs[..m + 1][1..] == fs[1..][..m];
    assert first + (fs[0].payload + Payloads(fs[1..][..m])) == first + fs[0].payload + Payloads(fs[1..][..m]);
    assert fs[1..][m..] == fs[m + 1..];
    if m < |fs| - 1 {
      assert fs[1..][m + 1..] == fs[m + 2..];
    }
  }

  /** The reader's two variables do what looking ahead does, over any fragments. */
  lemma {:induction false} ReadsAsParsed(fs: seq<Fragment>)
    ensures ReadAll(fs, false, []) == Parse(fs)
    decreases |fs|, 0
  {
    if fs != [] {
      if fs[0].kind == FIRST_TYPE {
        RunIsRead(fs[1..], fs[0].payload);
      } else {
        ReadsAsParsed(fs[1..]);
      }
    }
  }
}
