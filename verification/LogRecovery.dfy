/** What the logs hold after a crash, and replaying them (DBImpl::Recover and
    RecoverLogFile in db/db_impl.cc). */
module LogRecovery {
  import opened Wrappers
  import opened DbFormat
  import opened Coding
  import opened WriteBatches
  import opened GroupCommit
  import opened WriteQueues
  import opened LogFormat
  import LogFiles

  predicate Loggable(gs: seq<Group>) {
    forall i :: 0 <= i < |gs| ==>
      gs[i].first + |Ops(gs[i])| <= MAX_SEQUENCE && AllFit(Ops(gs[i])) && |Ops(gs[i])| < TWO_TO_32
  }

  /** The records of a log file: AddRecord is called with the bytes of the group's batch. */
  function Records(gs: seq<Group>): (r: seq<Bytes>)
    requires Loggable(gs)
    ensures |r| == |gs| && forall i :: 0 <= i < |gs| ==> r[i] == Contents(gs[i].first, Ops(gs[i]))
  {
    seq(|gs|, i requires 0 <= i < |gs| => Contents(gs[i].first, Ops(gs[i])))
  }

  /** The insertions of the groups one after the other. */
  function Replayed(gs: seq<Group>): seq<Numbered> {
    if gs == [] then [] else Replayed(gs[..|gs| - 1]) + Number(gs[|gs| - 1].first, Ops(gs[|gs| - 1]))
  }

  function Max(a: int, b: int): int { if a > b then a else b }

  /** The highest number handed out in the groups, or `m` if that is higher. */
  function LastNumber(m: int, gs: seq<Group>): int {
    if gs == [] then m
    else Max(LastNumber(m, gs[..|gs| - 1]), gs[|gs| - 1].first + |Ops(gs[|gs| - 1])| - 1)
  }

  function Flat(tables: seq<seq<Numbered>>): seq<Numbered> {
    if tables == [] then [] else Flat(tables[..|tables| - 1]) + tables[|tables| - 1]
  }

  /** A memtable that has grown past the limit becomes a table. */
  datatype Buffers = Buffers(tables: seq<seq<Numbered>>, mem: seq<Numbered>)

  ghost function BufferMore(r: Buffers, more: seq<Numbered>, usage: seq<Numbered> -> nat, limit: nat): Buffers {
    if usage(r.mem + more) > limit then Buffers(r.tables + [r.mem + more], []) else Buffers(r.tables, r.mem + more)
  }

  /** The tables and the memtable after replaying the groups. */
  ghost function Filled(gs: seq<Group>, usage: seq<Numbered> -> nat, limit: nat): Buffers {
    if gs == [] then Buffers([], [])
    else
      var g := gs[|gs| - 1];
      BufferMore(Filled(gs[..|gs| - 1], usage, limit), Number(g.first, Ops(g)), usage, limit)
  }

  /** Only memtables past the limit have become tables, as soon as they were. */
  lemma {:induction false} FilledPastLimit(gs: seq<Group>, usage: seq<Numbered> -> nat, limit: nat)
    ensures var r := Filled(gs, usage, limit);
      && (forall k :: 0 <= k < |r.tables| ==> usage(r.tables[k]) > limit) && (r.mem == [] || usage(r.mem) <= limit)
      && Flat(r.tables) + r.mem == Replayed(gs)
  {
    hide Number, Flat;
    if gs == [] {
      FlatOfNone();
    } else {
      var init, g := gs[..|gs| - 1], gs[|gs| - 1];
      FilledPastLimit(init, usage, limit);
      var r, more := Filled(init, usage, limit), Number(g.first, Ops(g));
      FlatOneMore(r.tables, r.mem + more);
      assert Flat(r.tables) + (r.mem + more) == Flat(r.tables) + r.mem + more;
    }
  }

  lemma FlatOfNone()
    ensures Flat([]) == []
  {
  }

  /** How many groups a file holds whole. */
  ghost predicate HoldsWhole(file: Bytes, gs: seq<Group>, kept: nat) {
    && Loggable(gs) && kept <= |gs|
    && |LogFile(Records(gs)[..kept])| <= |file|
    && (kept < |gs| ==> |file| < |LogFile(Records(gs)[..kept + 1])|)
  }

  /** RecoverLogFile on a file that may have been cut at any byte: exactly the groups whose
      records it holds whole are inserted again, under their old numbers and in order;
      full memtables go to tables on the way. */
  method RecoverLogFile(file: Bytes, usage: seq<Numbered> -> nat, writeBufferSize: nat, lastSequence: int,
                        ghost gs: seq<Group>)
    returns (tables: seq<seq<Numbered>>, mem: seq<Numbered>, maxSequence: int, corruptions: int, ghost kept: nat)
    requires Loggable(gs) && file <= LogFile(Records(gs))
    ensures corruptions == 0 && HoldsWhole(file, gs, kept)
    ensures Buffers(tables, mem) == Filled(gs[..kept], usage, writeBufferSize)
    ensures Flat(tables) + mem == Replayed(gs[..kept])
    ensures maxSequence == LastNumber(lastSequence, gs[..kept])
    ensures file == LogFile(Records(gs)) ==> kept == |gs|
  {
    hide LogFile, Contents, Scan, Body, DecodeFixed64, DecodeFixed32, Number, Joined, AllFit, Flat, Records, HoldsWhole,
      Replayed;
    NothingReplayed();
    ghost var records := Records(gs);
    var read;
    read, corruptions := LogFiles.ReadLog(file, records);
    kept := |read|;
    ReadIsWhole(file, gs, read);
    tables, mem, maxSequence := [], [], lastSequence;
    assert gs[..0] == [];
    for i := 0 to |read|
      invariant Buffers(tables, mem) == Filled(gs[..i], usage, writeBufferSize)
      invariant maxSequence == LastNumber(lastSequence, gs[..i])
      invariant corruptions == 0
    {
      assert read[i] == records[i];
      var rep := read[i];
      ReplayOfContents(gs[i].first, Ops(gs[i]));
      if |rep| < HEADER {
        corruptions := corruptions + 1;
      } else {
        var status;
        ghost var was := mem;
        mem, status := InsertInto(rep, mem);
        assert mem == was + Number(gs[i].first, Ops(gs[i]));
        var lastSeq := DecodeFixed64(rep[..8]) + DecodeFixed32(rep[8..12]) - 1;
        if lastSeq > maxSequence {
          maxSequence := lastSeq;
        }
        if usage(mem) > writeBufferSize {
          tables, mem := WriteTable(tables, mem);
        }
      }
      assert gs[..i + 1][..i] == gs[..i];
    }
    FilledPastLimit(gs[..|read|], usage, writeBufferSize);
  }

  lemma ReadIsWhole(file: Bytes, gs: seq<Group>, read: seq<Bytes>)
    requires Loggable(gs) && |read| <= |gs| && read == Records(gs)[..|read|]
    requires |LogFile(read)| <= |file|
    requires |read| < |gs| ==> |file| < |LogFile(Records(gs)[..|read| + 1])|
    ensures HoldsWhole(file, gs, |read|)
  {
  }

  method WriteTable(tables: seq<seq<Numbered>>, mem: seq<Numbered>) returns (more: seq<seq<Numbered>>, empty: seq<Numbered>)
    ensures more == tables + [mem] && empty == []
  {
    more, empty := tables + [mem], [];
  }

  lemma FlatOneMore(tables: seq<seq<Numbered>>, mem: seq<Numbered>)
    ensures Flat(tables + [mem]) == Flat(tables) + mem
  {
    assert (tables + [mem])[..|tables|] == tables;
  }

  /** What may be left of the live log files: any prefix that takes in all synced records. */
  ghost predicate CrashImage(s: State, files: seq<Bytes>) {
    && s.flushed <= |s.logs| && |files| == |s.logs| - s.flushed
    && forall j :: 0 <= j < |files| ==> CutOf(s.logs[s.flushed + j], files[j])
  }

  ghost predicate CutOf(log: LogState, file: Bytes) {
    && Loggable(log.groups) && log.synced <= |log.groups|
    && file <= LogFile(Records(log.groups))
    && |LogFile(Records(log.groups)[..log.synced])| <= |file|
  }

  /** The groups found again: those in tables, then what each live file still holds. */
  function Recovered(s: State, kept: seq<nat>): seq<Group>
    requires KeptFits(s, kept)
  {
    AllGroups(s.logs[..s.flushed]) + Surviving(s, kept)
  }

  predicate KeptFits(s: State, kept: seq<nat>) {
    && s.flushed + |kept| <= |s.logs|
    && forall j :: 0 <= j < |kept| ==> kept[j] <= |s.logs[s.flushed + j].groups|
  }

  function Surviving(s: State, kept: seq<nat>): seq<Group>
    requires KeptFits(s, kept)
  {
    if kept == [] then []
    else
      var n := |kept| - 1;
      Surviving(s, kept[..n]) + s.logs[s.flushed + n].groups[..kept[n]]
  }

  /** The request is in a record that is found again. */
  ghost predicate Survives(s: State, kept: seq<nat>, i: nat) {
    exists l: nat, k: nat :: InLog(s.logs, l, k, i) && (l < s.flushed || (l - s.flushed < |kept| && k < kept[l - s.flushed]))
  }

  lemma LogsAreLoggable(s: State, l: nat)
    requires Inv(s) && l < |s.logs|
    ensures Loggable(s.logs[l].groups)
  {
    ChainLoggable(s.arrived, AllGroups(s.logs), s.covered);
    LogInAll(s.logs, l);
  }

  /** The files that the live logs are, as far as they were written. */
  ghost function Written(s: State): seq<Bytes>
    requires s.flushed <= |s.logs| && forall l :: 0 <= l < |s.logs| ==> Loggable(s.logs[l].groups)
  {
    seq(|s.logs| - s.flushed, j requires 0 <= j < |s.logs| - s.flushed => LogFile(Records(s.logs[s.flushed + j].groups)))
  }

  /** The logs of any run can be written as records, and without a crash they are one
      possible image of themselves: what is proved of images is about real files. */
  lemma IntactLogsAreAnImage(states: seq<State>, steps: seq<Step>, n: nat)
    requires IsRun(states, steps) && n < |states|
    ensures var s := states[n];
      && s.flushed <= |s.logs| && (forall l :: 0 <= l < |s.logs| ==> Loggable(s.logs[l].groups))
      && CrashImage(s, Written(s))
  {
    hide IsRun, Inv, Loggable, LogFile, CutOf;
    EveryRunKeepsInv(states, steps, n);
    var s := states[n];
    forall l | 0 <= l < |s.logs|
      ensures Loggable(s.logs[l].groups)
    {
      LogsAreLoggable(s, l);
    }
    LogsInShape(s);
    forall j | 0 <= j < |Written(s)|
      ensures CutOf(s.logs[s.flushed + j], Written(s)[j])
    {
      WholeIsCut(s.logs[s.flushed + j]);
    }
  }

  lemma WholeIsCut(log: LogState)
    requires Loggable(log.groups) && log.synced <= |log.groups|
    ensures CutOf(log, LogFile(Records(log.groups)))
  {
    LogFiles.PrefixIsShorter(Records(log.groups), log.synced);
  }

  lemma LogsInShape(s: State)
    requires Inv(s)
    ensures s.flushed <= |s.logs| && forall l :: 0 <= l < |s.logs| ==> s.logs[l].synced <= |s.logs[l].groups|
  {
  }

  lemma {:induction false} ChainLoggable(arrived: seq<Request>, gs: seq<Group>, upTo: nat)
    requires Chain(arrived, gs, upTo)
    ensures Loggable(gs)
    decreases |gs|
  {
    hide AllFit, Joined, LedBySync;
    if gs != [] {
      ChainLoggable(arrived, gs[..|gs| - 1], gs[|gs| - 1].from);
      forall i | 0 <= i < |gs|
        ensures gs[i].first + |Ops(gs[i])| <= MAX_SEQUENCE && AllFit(Ops(gs[i])) && |Ops(gs[i])| < TWO_TO_32
      {
        if i < |gs| - 1 {
          assert gs[..|gs| - 1][i] == gs[i];
        }
      }
    }
  }

  lemma {:induction false} LogInAll(logs: seq<LogState>, l: nat)
    requires l < |logs|
    ensures forall k :: 0 <= k < |logs[l].groups| ==> logs[l].groups[k] in AllGroups(logs)
    decreases |logs|
  {
    var n := |logs| - 1;
    if l < n {
      LogInAll(logs[..n], l);
    }
  }

  /** A file that takes in all synced records holds at least as many groups whole. */
  lemma KeptCoversSynced(log: LogState, file: Bytes, kept: nat)
    requires CutOf(log, file) && HoldsWhole(file, log.groups, kept)
    ensures log.synced <= kept
  {
    LogFiles.PrefixesGrow(Records(log.groups), kept + 1, Max(kept + 1, log.synced));
  }

  lemma {:induction false} ReplayedConcat(a: seq<Group>, b: seq<Group>, m: int)
    ensures Replayed(a + b) == Replayed(a) + Replayed(b)
    ensures LastNumber(m, a + b) == LastNumber(LastNumber(m, a), b)
    decreases |b|
  {
    hide Number, Ops;
    if b == [] {
      assert a + b == a;
    } else {
      assert (a + b)[..|a + b| - 1] == a + b[..|b| - 1];
      ReplayedConcat(a, b[..|b| - 1], m);
    }
  }

  lemma {:induction false} FlatConcat(a: seq<seq<Numbered>>, b: seq<seq<Numbered>>)
    ensures Flat(a + b) == Flat(a) + Flat(b)
    decreases |b|
  {
    if b == [] {
      assert a + b == a;
    } else {
      assert (a + b)[..|a + b| - 1] == a + b[..|b| - 1];
      FlatConcat(a, b[..|b| - 1]);
    }
  }

  /** The memtable that is left becomes a table too. */
  function AsTables(tables: seq<seq<Numbered>>, mem: seq<Numbered>): (r: seq<seq<Numbered>>)
    ensures Flat(r) == Flat(tables) + mem
  {
    if mem == [] then tables else FlatOneMore(tables, mem); tables + [mem]
  }

  /** DBImpl::Recover over the live logs, oldest first. */
  method RecoverLogs(files: seq<Bytes>, usage: seq<Numbered> -> nat, writeBufferSize: nat, ghost s: State)
    returns (tables: seq<seq<Numbered>>, lastSequence: int, ghost kept: seq<nat>)
    requires Inv(s) && CrashImage(s, files)
    ensures |kept| == |files| && KeptFits(s, kept)
    ensures Flat(tables) == Replayed(Surviving(s, kept))
    ensures lastSequence == LastNumber(0, Surviving(s, kept))
    ensures forall j :: 0 <= j < |kept| ==> s.logs[s.flushed + j].synced <= kept[j]
  {
    hide Inv, HoldsWhole, LogFile, Loggable, LastNumber, Replayed, Flat, AsTables, Max, Filled;
    tables, lastSequence, kept := [], 0, [];
    NothingReplayed();
    for j := 0 to |files|
      invariant |kept| == j && KeptFits(s, kept)
      invariant Flat(tables) == Replayed(Surviving(s, kept))
      invariant lastSequence == LastNumber(0, Surviving(s, kept))
      invariant forall i :: 0 <= i < |kept| ==> s.logs[s.flushed + i].synced <= kept[i]
    {
      ghost var log := s.logs[s.flushed + j];
      assert CutOf(log, files[j]);
      var some, mem, corruptions;
      ghost var n: nat;
      some, mem, lastSequence, corruptions, n := RecoverLogFile(files[j], usage, writeBufferSize, lastSequence, log.groups);
      HoldsAtMost(files[j], log.groups, n);
      KeptCoversSynced(log, files[j], n);
      ReplayedConcat(Surviving(s, kept), log.groups[..n], 0);
      FlatConcat(tables, AsTables(some, mem));
      tables := tables + AsTables(some, mem);
      assert (kept + [n])[..j] == kept;
      kept := kept + [n];
    }
  }

  lemma NothingReplayed()
    ensures Flat([]) == Replayed([]) && LastNumber(0, []) == 0
  {
  }

  lemma HoldsAtMost(file: Bytes, gs: seq<Group>, kept: nat)
    requires HoldsWhole(file, gs, kept)
    ensures kept <= |gs|
  {
  }

  /** A write that asked for sync and was told of success is there after any crash. */
  lemma AcknowledgedSyncSurvives(states: seq<State>, steps: seq<Step>, n: nat, kept: seq<nat>, i: nat)
    requires IsRun(states, steps) && n < |states|
    requires var s := states[n];
      && s.flushed + |kept| == |s.logs| && KeptFits(s, kept)
      && (forall j :: 0 <= j < |kept| ==> s.logs[s.flushed + j].synced <= kept[j])
      && i < |s.outcomes| <= |s.arrived| && s.outcomes[i] && s.arrived[i].batch.Some? && s.arrived[i].sync
    ensures Survives(states[n], kept, i)
  {
    hide IsRun, Inv, Safe, Survives;
    EveryRunKeepsInv(states, steps, n);
    InvIsSafe(states[n]);
    SafeSurvives(states[n], kept, i);
  }

  lemma SafeSurvives(s: State, kept: seq<nat>, i: nat)
    requires Safe(s, i) && s.flushed + |kept| == |s.logs| && KeptFits(s, kept)
    requires forall j :: 0 <= j < |kept| ==> s.logs[s.flushed + j].synced <= kept[j]
    ensures Survives(s, kept, i)
  {
    var l: nat, k: nat :| InLog(s.logs, l, k, i) && OnDisk(s, l, k);
    if l >= s.flushed {
      assert s.logs[s.flushed + (l - s.flushed)].synced <= kept[l - s.flushed];
    }
  }

  // ----- what the survivors amount to

  /** Nothing of a later log is there unless the earlier one is whole. */
  predicate InOrder(s: State, kept: seq<nat>)
    requires KeptFits(s, kept)
  {
    |kept| == 2 && kept[0] < |s.logs[s.flushed].groups| ==> kept[1] == 0
  }

  lemma {:induction false} ChainAscends(arrived: seq<Request>, gs: seq<Group>, upTo: nat, a: nat, b: nat)
    requires Chain(arrived, gs, upTo) && a < b < |gs|
    ensures gs[a].from < gs[b].from
    decreases |gs|
  {
    hide AllFit, Joined, LedBySync;
    var n := |gs| - 1;
    if b < n {
      ChainAscends(arrived, gs[..n], gs[n].from, a, b);
    } else {
      ChainBelow(arrived, gs[..n], gs[n].from, a);
    }
  }

  lemma {:induction false} ChainBelow(arrived: seq<Request>, gs: seq<Group>, upTo: nat, a: nat)
    requires Chain(arrived, gs, upTo) && a < |gs|
    ensures gs[a].from < upTo
    decreases |gs|
  {
    hide AllFit, Joined, LedBySync;
    var n := |gs| - 1;
    if a < n {
      ChainBelow(arrived, gs[..n], gs[n].from, a);
    }
  }

  /** A prefix of the chain is the log of the first few requests. */
  lemma {:induction false} ChainPrefix(arrived: seq<Request>, gs: seq<Group>, upTo: nat, m: nat) returns (p: nat)
    requires Chain(arrived, gs, upTo) && m <= |gs|
    ensures Chain(arrived, gs[..m], p) && p <= |arrived|
    decreases |gs|
  {
    hide AllFit, Joined, LedBySync;
    if m == |gs| {
      assert gs[..m] == gs;
      p := upTo;
    } else {
      var n := |gs| - 1;
      assert gs[..n][..m] == gs[..m];
      p := ChainPrefix(arrived, gs[..n], gs[n].from, m);
    }
  }

  lemma {:induction false} ChainReplays(arrived: seq<Request>, gs: seq<Group>, upTo: nat)
    requires Chain(arrived, gs, upTo)
    ensures upTo <= |arrived| && Replayed(gs) == Number(1, Joined(arrived[..upTo]))
    decreases |gs|
  {
    hide AllFit, LedBySync;
    if gs != [] {
      var g := gs[|gs| - 1];
      ChainReplays(arrived, gs[..|gs| - 1], g.from);
      hide Joined, Number;
      InsertedSoFar(arrived, g);
    }
  }

  lemma TwoLiveLogs(logs: seq<LogState>, flushed: nat)
    requires flushed < |logs| <= flushed + 2
    ensures AllGroups(logs) == AllGroups(logs[..flushed]) + logs[flushed].groups +
      (if |logs| == flushed + 2 then logs[flushed + 1].groups else [])
  {
    var n := |logs| - 1;
    if n == flushed + 1 {
      assert logs[..n][..flushed] == logs[..flushed];
    }
  }

  lemma SurvivingOfTwo(s: State, kept: seq<nat>)
    requires Shape(s) && s.flushed + |kept| == |s.logs| && KeptFits(s, kept)
    ensures Surviving(s, kept) == s.logs[s.flushed].groups[..kept[0]] +
      (if |kept| == 2 then s.logs[s.flushed + 1].groups[..kept[1]] else [])
  {
    var n := |kept| - 1;
    assert kept[..n][..0] == [];
    if n == 1 {
      assert Surviving(s, kept[..1]) == Surviving(s, kept[..1][..0]) + s.logs[s.flushed].groups[..kept[0]];
    }
  }

  /** The groups found again are a prefix of all groups exactly when no log was cut before
      the survivors of a later one. */
  lemma PrefixIffInOrder(s: State, kept: seq<nat>)
    requires Inv(s) && s.flushed + |kept| == |s.logs| && KeptFits(s, kept)
    ensures Recovered(s, kept) <= AllGroups(s.logs) <==> InOrder(s, kept)
  {
    hide GroupOk, Joined, LedBySync, Data, Counters, PhaseOk, SyncedAreSafe, LastLogged, AllSound, AllGroups, Surviving;
    TwoLiveLogs(s.logs, s.flushed);
    SurvivingOfTwo(s, kept);
    var done, l0 := AllGroups(s.logs[..s.flushed]), s.logs[s.flushed].groups;
    var l1 := if |s.logs| == s.flushed + 2 then s.logs[s.flushed + 1].groups else [];
    var k1 := if |kept| == 2 then kept[1] else 0;
    var all := done + l0 + l1;
    if kept[0] < |l0| && k1 > 0 {
      ChainAscends(s.arrived, all, s.covered, |done| + kept[0], |done| + |l0|);
      assert all[|done| + |l0|] == l1[0] && all[|done| + kept[0]] == l0[kept[0]];
    }
    hide Inv;
    CutsOfThree(done, l0, l1, kept[0], k1);
  }

  lemma CutsOfThree(done: seq<Group>, l0: seq<Group>, l1: seq<Group>, k0: nat, k1: nat)
    requires k0 <= |l0| && k1 <= |l1|
    requires k0 < |l0| && k1 > 0 ==> l0[k0] != l1[0]
    ensures done + (l0[..k0] + l1[..k1]) <= done + l0 + l1 <==> (k0 < |l0| ==> k1 == 0)
  {
    var r, all := done + (l0[..k0] + l1[..k1]), done + l0 + l1;
    if k0 == |l0| {
      assert r == done + l0 + l1[..k1];
    } else if k1 == 0 {
      assert r == done + l0[..k0];
    } else {
      assert r[|done| + k0] == l1[0] && all[|done| + k0] == l0[k0];
    }
  }

  /** Then the store is what the first few requests, written one at a time, make of it. */
  lemma RecoversOneAtATime(states: seq<State>, steps: seq<Step>, n: nat, kept: seq<nat>) returns (p: nat)
    requires IsRun(states, steps) && n < |states|
    requires states[n].flushed + |kept| == |states[n].logs| && KeptFits(states[n], kept) && InOrder(states[n], kept)
    ensures p <= |states[n].arrived|
    ensures Replayed(Recovered(states[n], kept)) == OneAtATime(states[n].arrived[..p]).inserted
  {
    var s := states[n];
    EveryRunKeepsInv(states, steps, n);
    PrefixIffInOrder(s, kept);
    var r, all := Recovered(s, kept), AllGroups(s.logs);
    hide Recovered, AllGroups, Number, Joined, InOrder, IsRun;
    assert r == all[..|r|];
    p := ChainPrefix(s.arrived, all, s.covered, |r|);
    ChainReplays(s.arrived, r, p);
    OneAtATimeIs(s.arrived[..p]);
  }

  // ----- a sync write says nothing about an older log

  const START: State := State([], [], Idle, 0, [LogState([], 0)], 0, [], false, 0, 0)

  function First(early: Request): Group {
    Group(0, 1, [early])
  }

  function Second(early: Request, late: Request): Group {
    Group(1, |BatchOf(early)| + 1, [late])
  }

  /** The early write has finished, without sync. */
  function EarlyDone(early: Request): State {
    State([early], [true], Idle, |BatchOf(early)|, [LogState([First(early)], 0)], 0, Number(1, BatchOf(early)), false, 1, 1)
  }

  function EarlyStates(early: Request): seq<State> {
    var g := First(early);
    var s1 := START.(arrived := [early]);
    var s2 := s1.(phase := Leading(g));
    var s3 := s2.(phase := Logged(g), logs := [LogState([g], 0)], covered := 1);
    var s4 := s3.(phase := Inserted(g), inserted := Number(1, BatchOf(early)), applied := 1);
    [START, s1, s2, s3, s4, EarlyDone(early)]
  }

  const EARLY_TAIL: seq<Step> := [BeginGroup, AppendRecord, Insert, Finish]

  /** The memtable was switched, and the late write has finished, with sync. */
  function LateDone(early: Request, late: Request): State {
    State([early, late], [true, true], Idle, |BatchOf(early)| + |BatchOf(late)|,
          [LogState([First(early)], 0), LogState([Second(early, late)], 1)], 0,
          Number(1, BatchOf(early)) + Number(|BatchOf(early)| + 1, BatchOf(late)), false, 2, 2)
  }

  function LateStates(early: Request, late: Request): seq<State> {
    var g, h := First(early), Second(early, late);
    var s6 := EarlyDone(early).(arrived := [early, late]);
    var s7 := s6.(logs := [LogState([g], 0), LogState([], 0)]);
    var s8 := s7.(phase := Leading(h));
    var s9 := s8.(phase := Logged(h), logs := [LogState([g], 0), LogState([h], 0)], covered := 2);
    var s10 := s9.(phase := Durable(h), logs := [LogState([g], 0), LogState([h], 1)]);
    var s11 := s10.(phase := Inserted(h), inserted := s10.inserted + Number(h.first, BatchOf(late)), applied := 2);
    [s6, s7, s8, s9, s10, s11, LateDone(early, late)]
  }

  const LATE_TAIL: seq<Step> := [SwitchLog, BeginGroup, AppendRecord, Step.Sync(true), Insert, Finish]

  function TwoWriteSteps(early: Request, late: Request): seq<Step> {
    [Arrive(early)] + EARLY_TAIL + [Arrive(late)] + LATE_TAIL
  }

  lemma JoinedAlone(r: Request)
    ensures Joined([r]) == BatchOf(r)
  {
    assert [r][..0] == [];
  }

  lemma AloneInQueue(s: State, r: Request)
    requires |s.arrived| == |s.outcomes| + 1 && s.arrived[|s.outcomes|] == r && r.batch.Some?
    ensures NewGroup(s) == Group(|s.outcomes|, s.lastSequence + 1, [r])
  {
    assert Queue(s) == [r];
    assert [r][..1] == [r];
  }

  lemma EarlyRuns(early: Request)
    requires Sound(early) && early.batch.Some? && !early.sync && |early.batch.value| < MAX_SEQUENCE
    ensures var ss := EarlyStates(early); Init(ss[0]) && Next(ss[0], Arrive(early), ss[1])
    ensures forall i :: 0 <= i < 4 ==> Next(EarlyStates(early)[i + 1], EARLY_TAIL[i], EarlyStates(early)[i + 2])
  {
    hide Number, Sound;
    JoinedAlone(early);
    var ss := EarlyStates(early);
    AloneInQueue(ss[1], early);
    assert Next(ss[1], BeginGroup, ss[2]);
    assert [] + [First(early)] == [First(early)];
    assert Next(ss[2], AppendRecord, ss[3]);
    assert Next(ss[3], Insert, ss[4]);
    assert Next(ss[4], Finish, ss[5]);
  }

  lemma LateRuns(early: Request, late: Request)
    requires Sound(late) && late.batch.Some? && late.sync && |BatchOf(early)| + |late.batch.value| < MAX_SEQUENCE
    ensures Next(EarlyDone(early), Arrive(late), LateStates(early, late)[0])
    ensures forall i :: 0 <= i < 6 ==> Next(LateStates(early, late)[i], LATE_TAIL[i], LateStates(early, late)[i + 1])
  {
    LateArrives(early, late);
    LateGroup(early, late);
    LateEnds(early, late);
    hide Number, Sound, LateStates, Next;
  }

  lemma LateArrives(early: Request, late: Request)
    requires Sound(late) && late.batch.Some? && late.sync && |BatchOf(early)| + |late.batch.value| < MAX_SEQUENCE
    ensures Next(EarlyDone(early), Arrive(late), LateStates(early, late)[0])
    ensures Next(LateStates(early, late)[0], SwitchLog, LateStates(early, late)[1])
  {
    hide Number, Sound;
  }

  lemma LateGroup(early: Request, late: Request)
    requires Sound(late) && late.batch.Some? && late.sync && |BatchOf(early)| + |late.batch.value| < MAX_SEQUENCE
    ensures Next(LateStates(early, late)[1], BeginGroup, LateStates(early, late)[2])
    ensures Next(LateStates(early, late)[2], AppendRecord, LateStates(early, late)[3])
  {
    hide Number, Sound;
    JoinedAlone(late);
    var ss := LateStates(early, late);
    AloneInQueue(ss[1], late);
    assert [] + [Second(early, late)] == [Second(early, late)];
  }

  lemma LateEnds(early: Request, late: Request)
    requires Sound(late) && late.batch.Some? && late.sync && |BatchOf(early)| + |late.batch.value| < MAX_SEQUENCE
    ensures forall i :: 3 <= i < 6 ==> Next(LateStates(early, late)[i], LATE_TAIL[i], LateStates(early, late)[i + 1])
  {
    hide Number, Sound;
    JoinedAlone(late);
    var ss := LateStates(early, late);
    assert Next(ss[3], Step.Sync(true), ss[4]);
    assert Next(ss[4], Insert, ss[5]);
    assert Next(ss[5], Finish, ss[6]);
  }

  /** Both writes are acknowledged and the later one asked for sync.  The crash leaves an
      empty old log, and only the later write comes back. */
  lemma LaterSyncedWriteSurvivesAlone(early: Request, late: Request)
    requires Sound(early) && early.batch.Some? && !early.sync
    requires Sound(late) && late.batch.Some? && late.sync
    requires |early.batch.value| + |late.batch.value| < MAX_SEQUENCE
    ensures IsRun(EarlyStates(early) + LateStates(early, late), TwoWriteSteps(early, late))
    ensures var s := LateDone(early, late);
      && s == (EarlyStates(early) + LateStates(early, late))[12]
      && Loggable(s.logs[1].groups)
      && CrashImage(s, [[], LogFile(Records(s.logs[1].groups))])
      && s.flushed + |[0, 1]| == |s.logs| && KeptFits(s, [0, 1])
      && Survives(s, [0, 1], 1) && !Survives(s, [0, 1], 0)
      && Replayed(Recovered(s, [0, 1])) == Number(|early.batch.value| + 1, late.batch.value)
  {
    EarlyRuns(early);
    LateRuns(early, late);
    RunIsJoined(early, late);
    LateAlone(early, late);
  }

  lemma RunIsJoined(early: Request, late: Request)
    requires var ss := EarlyStates(early); Init(ss[0]) && Next(ss[0], Arrive(early), ss[1])
    requires forall i :: 0 <= i < 4 ==> Next(EarlyStates(early)[i + 1], EARLY_TAIL[i], EarlyStates(early)[i + 2])
    requires Next(EarlyDone(early), Arrive(late), LateStates(early, late)[0])
    requires forall i :: 0 <= i < 6 ==> Next(LateStates(early, late)[i], LATE_TAIL[i], LateStates(early, late)[i + 1])
    ensures IsRun(EarlyStates(early) + LateStates(early, late), TwoWriteSteps(early, late))
  {
    hide Next, Init, EarlyDone, Number;
    var xs, ys := EarlyStates(early), LateStates(early, late);
    var steps := TwoWriteSteps(early, late);
    forall i | 0 <= i < |steps| ensures Next((xs + ys)[i], steps[i], (xs + ys)[i + 1]) {
      if 1 <= i < 5 {
        assert Next(xs[i - 1 + 1], EARLY_TAIL[i - 1], xs[i - 1 + 2]);
      } else if 6 <= i {
        assert Next(ys[i - 6], LATE_TAIL[i - 6], ys[i - 6 + 1]);
      }
    }
  }

  lemma LateAlone(early: Request, late: Request)
    requires Sound(early) && early.batch.Some? && Sound(late) && late.batch.Some?
    requires |early.batch.value| + |late.batch.value| < MAX_SEQUENCE
    ensures var s := LateDone(early, late);
      && Loggable(s.logs[1].groups)
      && CrashImage(s, [[], LogFile(Records(s.logs[1].groups))])
      && KeptFits(s, [0, 1])
      && Survives(s, [0, 1], 1) && !Survives(s, [0, 1], 0)
      && Replayed(Recovered(s, [0, 1])) == Number(|early.batch.value| + 1, late.batch.value)
  {
    var s := LateDone(early, late);
    var g, h := First(early), Second(early, late);
    JoinedAlone(early);
    JoinedAlone(late);
    hide Joined, Number, LogFile, CutOf, Survives, Recovered, Replayed;
    NothingLeft(g);
    AllLeft(h);
    OnlyLateFound(s, g, h);
  }

  lemma NothingLeft(g: Group)
    requires Loggable([g])
    ensures CutOf(LogState([g], 0), [])
  {
    assert Records([g])[..0] == [];
    LogFiles.NothingRead([], LogFragments([], 0), BLOCK_SIZE, 0);
  }

  lemma AllLeft(h: Group)
    requires Loggable([h])
    ensures CutOf(LogState([h], 1), LogFile(Records([h])))
  {
    assert Records([h])[..1] == Records([h]);
  }

  lemma OnlyLateFound(s: State, g: Group, h: Group)
    requires s.logs == [LogState([g], 0), LogState([h], 1)] && s.flushed == 0
    requires g.from == 0 && |g.members| == 1 == h.from && |h.members| == 1
    ensures KeptFits(s, [0, 1]) && Replayed(Recovered(s, [0, 1])) == Number(h.first, Ops(h))
    ensures Survives(s, [0, 1], 1) && !Survives(s, [0, 1], 0)
  {
    hide Number, Ops;
    assert InLog(s.logs, 1, 0, 1);
    var none: seq<nat>, one: seq<nat>, both: seq<nat> := [], [0], [0, 1];
    assert both[..1] == one && one[..0] == none && s.logs[..0] == [];
    assert [g][..0] == [] && [h][..1] == [h];
    assert Surviving(s, one) == Surviving(s, none) + [g][..0] == [];
    assert Surviving(s, both) == Surviving(s, one) + [h][..1] == [h];
    assert Recovered(s, both) == [h];
    assert [h][..0] == [];
  }
}
