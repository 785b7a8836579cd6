/** Group commit as a state machine: each step is what one thread does between two
    operations on the mutex (DBImpl::Write and MakeRoomForWrite in db/db_impl.cc). */
module WriteQueues {
  import opened Wrappers
  import opened DbFormat
  import opened Coding
  import opened WriteBatches
  import opened GroupCommit

  /** A group of requests: where it starts among all that ever arrived, the number of its
      first operation, the requests. */
  datatype Group = Group(from: nat, first: nat, members: seq<Request>)

  function End(g: Group): nat {
    g.from + |g.members|
  }

  function Ops(g: Group): seq<Op> {
    Joined(g.members)
  }

  /** A log file: one record for each group, and how many of them are known to be on disk. */
  datatype LogState = LogState(groups: seq<Group>, synced: nat)

  /** How far the front writer has come with its group. */
  datatype Phase =
    | Idle
    | Leading(group: Group)
    | Logged(group: Group)
    | Durable(group: Group)
    | Failing(group: Group)
    | Inserted(group: Group)

  /** `arrived` are all requests so far and `outcomes` the answers given, so the queue is what
      lies between.  `flushed` log files are obsolete, their operations are in tables.
      No step looks at `applied` and `covered`, which count the requests whose operations
      are inserted and logged. */
  datatype State = State(
    arrived: seq<Request>,
    outcomes: seq<bool>,
    phase: Phase,
    lastSequence: nat,
    logs: seq<LogState>,
    flushed: nat,
    inserted: seq<Numbered>,
    failed: bool,
    applied: nat,
    covered: nat)

  datatype Step =
    | Arrive(request: Request)
    | BeginGroup
    | AppendRecord
    | Sync(ok: bool)
    | Insert
    | Finish
    | PopFront
    | SwitchLog
    | Flush

  predicate Init(s: State) {
    s == State([], [], Idle, 0, [LogState([], 0)], 0, [], false, 0, 0)
  }

  predicate Waiting(s: State) {
    |s.outcomes| < |s.arrived|
  }

  function Queue(s: State): seq<Request>
    requires |s.outcomes| <= |s.arrived|
  {
    s.arrived[|s.outcomes|..]
  }

  function NewGroup(s: State): Group
    requires Waiting(s) && s.arrived[|s.outcomes|].batch.Some?
  {
    Group(|s.outcomes|, s.lastSequence + 1, Queue(s)[..GroupLength(Queue(s))])
  }

  function AppendGroup(logs: seq<LogState>, g: Group): seq<LogState>
    requires logs != []
  {
    var last := logs[|logs| - 1];
    logs[|logs| - 1 := last.(groups := last.groups + [g])]
  }

  function SyncLast(logs: seq<LogState>): seq<LogState>
    requires logs != []
  {
    var last := logs[|logs| - 1];
    logs[|logs| - 1 := last.(synced := |last.groups|)]
  }

  function Answers(n: nat, ok: bool): seq<bool> {
    seq(n, i => ok)
  }

  predicate Next(s: State, step: Step, t: State) {
    match step
    case Arrive(r) =>
      Sound(r) && t == s.(arrived := s.arrived + [r])
    case BeginGroup =>
      && s.phase.Idle? && !s.failed && Waiting(s) && s.arrived[|s.outcomes|].batch.Some?
      && s.lastSequence + |Ops(NewGroup(s))| < MAX_SEQUENCE
      && t == s.(phase := Leading(NewGroup(s)))
    case AppendRecord =>
      && s.phase.Leading? && s.logs != []
      && t == s.(phase := Logged(s.phase.group), logs := AppendGroup(s.logs, s.phase.group), covered := End(s.phase.group))
    case Sync(ok) =>
      && s.phase.Logged? && s.phase.group.members != [] && s.phase.group.members[0].sync && s.logs != []
      && t == if ok then s.(phase := Durable(s.phase.group), logs := SyncLast(s.logs))
              else s.(phase := Failing(s.phase.group))
    case Insert =>
      && (s.phase.Durable? || (s.phase.Logged? && s.phase.group.members != [] && !s.phase.group.members[0].sync))
      && t == s.(phase := Inserted(s.phase.group),
                 inserted := s.inserted + Number(s.phase.group.first, Ops(s.phase.group)),
                 applied := End(s.phase.group))
    case Finish =>
      && (s.phase.Inserted? || s.phase.Failing?)
      && t == s.(phase := Idle,
                 lastSequence := s.lastSequence + |Ops(s.phase.group)|,
                 outcomes := s.outcomes + Answers(|s.phase.group.members|, s.phase.Inserted?),
                 failed := s.phase.Failing?)
    case PopFront =>
      && s.phase.Idle? && Waiting(s) && (s.failed || s.arrived[|s.outcomes|].batch.None?)
      && t == s.(outcomes := s.outcomes + [!s.failed],
                 applied := if s.failed then s.applied else |s.outcomes| + 1,
                 covered := if s.failed then s.covered else |s.outcomes| + 1)
    case SwitchLog =>
      && s.phase.Idle? && Waiting(s) && !s.failed && s.flushed + 1 == |s.logs|
      && t == s.(logs := s.logs + [LogState([], 0)])
    case Flush =>
      s.flushed + 1 < |s.logs| && t == s.(flushed := s.flushed + 1)
  }

  // ----- what every step keeps

  predicate Shape(s: State) {
    && |s.outcomes| <= |s.arrived| && AllSound(s.arrived)
    && s.flushed < |s.logs| <= s.flushed + 2
    && s.lastSequence < MAX_SEQUENCE
    && (forall l :: 0 <= l < |s.logs| ==> s.logs[l].synced <= |s.logs[l].groups|)
  }

  /** A group as BuildBatchGroup makes it. */
  predicate GroupOk(arrived: seq<Request>, g: Group) {
    && g.members != [] && End(g) <= |arrived| && g.members == arrived[g.from..End(g)]
    && LedBySync(g.members)
    && g.first + |Ops(g)| <= MAX_SEQUENCE
    && AllFit(Ops(g)) && |Ops(g)| < TWO_TO_32
  }

  predicate PhaseOk(s: State) {
    s.phase.Idle? ||
    (var g := s.phase.group;
     && !s.failed && GroupOk(s.arrived, g)
     && g.from == |s.outcomes| && g.first == s.lastSequence + 1
     && s.lastSequence + |Ops(g)| < MAX_SEQUENCE)
  }

  predicate Counters(s: State) {
    && (s.failed ==> s.phase.Idle? && s.applied <= s.covered <= |s.outcomes|)
    && (!s.failed ==>
          && s.covered == (if s.phase.Idle? || s.phase.Leading? then |s.outcomes| else End(s.phase.group))
          && s.applied == (if s.phase.Inserted? then End(s.phase.group) else |s.outcomes|))
    && (forall i :: 0 <= i < |s.outcomes| ==> (s.outcomes[i] <==> i < s.applied))
  }

  predicate Data(s: State) {
    && s.applied <= |s.arrived| && Counted(s) <= |s.arrived|
    && s.inserted == Number(1, Joined(s.arrived[..s.applied]))
    && s.lastSequence == |Joined(s.arrived[..Counted(s)])|
  }

  /** The requests that `lastSequence` counts. */
  function Counted(s: State): nat {
    if s.failed then s.covered else |s.outcomes|
  }

  /** The groups of all log files, oldest first. */
  function AllGroups(logs: seq<LogState>): seq<Group> {
    if logs == [] then [] else AllGroups(logs[..|logs| - 1]) + logs[|logs| - 1].groups
  }

  /** Groups in the order of the queue, numbered without a gap; between two groups, and
      after the last, only requests without a batch. */
  ghost predicate Chain(arrived: seq<Request>, gs: seq<Group>, upTo: nat)
    decreases |gs|
  {
    if gs == [] then
      upTo <= |arrived| && Joined(arrived[..upTo]) == []
    else
      var g := gs[|gs| - 1];
      && GroupOk(arrived, g) && End(g) <= upTo <= |arrived|
      && Chain(arrived, gs[..|gs| - 1], g.from)
      && g.first == |Joined(arrived[..g.from])| + 1
      && Joined(arrived[..upTo]) == Joined(arrived[..End(g)])
  }

  predicate Covers(g: Group, i: nat) {
    g.from <= i < End(g)
  }

  predicate InLog(logs: seq<LogState>, l: nat, k: nat, i: nat) {
    l < |logs| && k < |logs[l].groups| && Covers(logs[l].groups[k], i)
  }

  predicate OnDisk(s: State, l: nat, k: nat) {
    l < s.flushed || (l < |s.logs| && k < s.logs[l].synced)
  }

  /** The record that holds the request is on disk, in a synced part of its log or in a table. */
  ghost predicate Safe(s: State, i: nat) {
    exists l, k :: InLog(s.logs, l, k, i) && OnDisk(s, l, k)
  }

  ghost predicate SyncedAreSafe(s: State) {
    forall i :: 0 <= i < |s.outcomes| && i < |s.arrived| && s.outcomes[i] && s.arrived[i].batch.Some? && s.arrived[i].sync
      ==> Safe(s, i)
  }

  predicate LastLogged(s: State)
    requires s.logs != [] && PhaseOk(s)
  {
    var last := s.logs[|s.logs| - 1];
    s.phase.Idle? || s.phase.Leading? ||
    (&& last.groups != [] && last.groups[|last.groups| - 1] == s.phase.group
     && ((s.phase.Durable? || s.phase.Inserted?) && s.phase.group.members[0].sync ==> last.synced == |last.groups|))
  }

  ghost predicate Inv(s: State) {
    && Shape(s) && PhaseOk(s) && Counters(s) && Data(s)
    && Chain(s.arrived, AllGroups(s.logs), s.covered)
    && SyncedAreSafe(s) && LastLogged(s)
  }

  // ----- the parts

  lemma {:induction false} GroupOkStretches(arrived: seq<Request>, r: Request, g: Group)
    requires GroupOk(arrived, g)
    ensures GroupOk(arrived + [r], g)
  {
    assert (arrived + [r])[g.from..End(g)] == arrived[g.from..End(g)];
  }

  lemma {:induction false} ChainStretches(arrived: seq<Request>, r: Request, gs: seq<Group>, upTo: nat)
    requires Chain(arrived, gs, upTo)
    ensures Chain(arrived + [r], gs, upTo)
    decreases |gs|
  {
    hide GroupOk, Joined;
    assert (arrived + [r])[..upTo] == arrived[..upTo];
    if gs != [] {
      var g := gs[|gs| - 1];
      GroupOkStretches(arrived, r, g);
      assert (arrived + [r])[..g.from] == arrived[..g.from];
      assert (arrived + [r])[..End(g)] == arrived[..End(g)];
      ChainStretches(arrived, r, gs[..|gs| - 1], g.from);
    }
  }

  lemma ChainUpTo(arrived: seq<Request>, gs: seq<Group>, a: nat, b: nat)
    requires Chain(arrived, gs, a) && a <= b <= |arrived| && Joined(arrived[..a]) == Joined(arrived[..b])
    ensures Chain(arrived, gs, b)
  {
  }

  lemma ChainGrows(arrived: seq<Request>, gs: seq<Group>, g: Group)
    requires Chain(arrived, gs, g.from) && GroupOk(arrived, g) && g.first == |Joined(arrived[..g.from])| + 1
    ensures Chain(arrived, gs + [g], End(g))
  {
    assert (gs + [g])[..|gs|] == gs;
  }

  lemma {:induction false} AllGroupsChange(logs: seq<LogState>, last: LogState)
    requires logs != []
    ensures var n := |logs| - 1; AllGroups(logs[n := last]) == AllGroups(logs[..n]) + last.groups
  {
    var n := |logs| - 1;
    assert logs[n := last][..n] == logs[..n];
  }

  lemma AllGroupsAppend(logs: seq<LogState>, g: Group)
    requires logs != []
    ensures AllGroups(AppendGroup(logs, g)) == AllGroups(logs) + [g]
  {
    var n := |logs| - 1;
    AllGroupsChange(logs, logs[n].(groups := logs[n].groups + [g]));
  }

  lemma AllGroupsSync(logs: seq<LogState>)
    requires logs != []
    ensures AllGroups(SyncLast(logs)) == AllGroups(logs)
  {
    var n := |logs| - 1;
    AllGroupsChange(logs, logs[n].(synced := |logs[n].groups|));
  }

  lemma AllGroupsSwitch(logs: seq<LogState>)
    ensures AllGroups(logs + [LogState([], 0)]) == AllGroups(logs)
  {
    assert (logs + [LogState([], 0)])[..|logs|] == logs;
  }

  /** Logs only grow, and what is on disk stays there. */
  predicate Grown(s: State, t: State) {
    && s.flushed <= t.flushed && |s.logs| <= |t.logs|
    && forall l :: 0 <= l < |s.logs| ==> s.logs[l].groups <= t.logs[l].groups && s.logs[l].synced <= t.logs[l].synced
  }

  lemma StaysSafe(s: State, t: State, i: nat)
    requires Grown(s, t) && Safe(s, i)
    ensures Safe(t, i)
  {
    var l: nat, k: nat :| InLog(s.logs, l, k, i) && OnDisk(s, l, k);
    assert t.logs[l].groups[k] == s.logs[l].groups[k];
    assert InLog(t.logs, l, k, i) && OnDisk(t, l, k);
  }

  lemma SyncedStaySafe(s: State, t: State)
    requires SyncedAreSafe(s) && Grown(s, t) && s.outcomes == t.outcomes && s.arrived <= t.arrived
    requires |s.outcomes| <= |s.arrived|
    ensures SyncedAreSafe(t)
  {
    hide Safe;
    forall i | 0 <= i < |t.outcomes| && t.outcomes[i] && t.arrived[i].batch.Some? && t.arrived[i].sync
      ensures Safe(t, i)
    {
      assert t.arrived[i] == s.arrived[i];
      StaysSafe(s, t, i);
    }
  }

  // ----- the steps

  lemma ArriveKeeps(s: State, r: Request, t: State)
    requires Inv(s) && Next(s, Arrive(r), t)
    ensures Inv(t)
  {
    hide Chain, SyncedAreSafe, Joined, GroupOk, AllGroups, Number, GroupEnd;
    ChainStretches(s.arrived, r, AllGroups(s.logs), s.covered);
    if !s.phase.Idle? {
      GroupOkStretches(s.arrived, r, s.phase.group);
    }
    SyncedStaySafe(s, t);
    assert t.arrived[..s.applied] == s.arrived[..s.applied];
    assert t.arrived[..Counted(s)] == s.arrived[..Counted(s)];
  }

  lemma BeginGroupKeeps(s: State, t: State)
    requires Inv(s) && Next(s, BeginGroup, t)
    ensures Inv(t)
  {
    hide Chain, SyncedAreSafe, Joined, GroupEnd, AllFit, Sound;
    var q := Queue(s);
    var n := GroupLength(q);
    GroupIsSound(q);
    var size := ByteSize(q[0].batch.value);
    GroupEndLed(q, 1, size, MaxSize(size));
    assert q[..n] == s.arrived[|s.outcomes|..|s.outcomes| + n];
    SyncedStaySafe(s, t);
  }

  lemma AppendRecordKeeps(s: State, t: State)
    requires Inv(s) && Next(s, AppendRecord, t)
    ensures Inv(t)
  {
    hide Chain, SyncedAreSafe, Joined, GroupOk, AllGroups, Number, GroupEnd;
    var g := s.phase.group;
    ChainGrows(s.arrived, AllGroups(s.logs), g);
    AllGroupsAppend(s.logs, g);
    SyncedStaySafe(s, t);
  }

  lemma SyncKeeps(s: State, ok: bool, t: State)
    requires Inv(s) && Next(s, Step.Sync(ok), t)
    ensures Inv(t)
  {
    hide Chain, SyncedAreSafe, Joined, GroupOk, AllGroups, Number, GroupEnd;
    AllGroupsSync(s.logs);
    SyncedStaySafe(s, t);
  }

  lemma InsertKeeps(s: State, t: State)
    requires Inv(s) && Next(s, Step.Insert, t)
    ensures Inv(t)
  {
    hide Chain, SyncedAreSafe, Joined, GroupOk, AllGroups, Number, GroupEnd;
    var g := s.phase.group;
    InsertedSoFar(s.arrived, g);
    GroupHasMembers(s.arrived, g);
    SyncedStaySafe(s, t);
  }

  lemma InsertedSoFar(arrived: seq<Request>, g: Group)
    requires GroupOk(arrived, g)
    ensures Joined(arrived[..End(g)]) == Joined(arrived[..g.from]) + Ops(g)
    ensures Number(1, Joined(arrived[..End(g)])) ==
      Number(1, Joined(arrived[..g.from])) + Number(|Joined(arrived[..g.from])| + 1, Ops(g))
  {
    assert arrived[..End(g)] == arrived[..g.from] + g.members;
    JoinedConcat(arrived[..g.from], g.members);
    NumberConcat(1, Joined(arrived[..g.from]), Ops(g));
  }

  lemma FinishKeeps(s: State, t: State)
    requires Inv(s) && Next(s, Finish, t)
    ensures Inv(t)
  {
    hide Chain, SyncedAreSafe, Joined, GroupOk, AllGroups, Number, GroupEnd;
    var g := s.phase.group;
    InsertedSoFar(s.arrived, g);
    FinishedAreSafe(s, t);
    assert GroupOk(s.arrived, g);
    GroupHasMembers(s.arrived, g);
  }

  lemma GroupHasMembers(arrived: seq<Request>, g: Group)
    requires GroupOk(arrived, g)
    ensures g.members != [] && End(g) <= |arrived|
  {
  }

  lemma FinishedAreSafe(s: State, t: State)
    requires Inv(s) && Next(s, Finish, t)
    ensures SyncedAreSafe(t)
  {
    var g := s.phase.group;
    var l := |s.logs| - 1;
    hide Chain, Safe;
    forall i | 0 <= i < |t.outcomes| && t.outcomes[i] && t.arrived[i].batch.Some? && t.arrived[i].sync
      ensures Safe(t, i)
    {
      if i < |s.outcomes| {
        assert s.outcomes[i];
        StaysSafe(s, t, i);
      } else {
        MemberIsSafe(s, t, i);
      }
    }
  }

  lemma MemberIsSafe(s: State, t: State, i: nat)
    requires Inv(s) && Next(s, Finish, t) && |s.outcomes| <= i < |t.outcomes| && t.outcomes[i] && t.arrived[i].sync
    ensures Safe(t, i)
  {
    hide Chain, SyncedAreSafe, Joined, AllGroups, Number, GroupEnd;
    var g := s.phase.group;
    assert g.members[i - g.from] == s.arrived[i];
    var l := |s.logs| - 1;
    assert InLog(t.logs, l, |s.logs[l].groups| - 1, i) && OnDisk(t, l, |s.logs[l].groups| - 1);
  }

  lemma PopFrontKeeps(s: State, t: State)
    requires Inv(s) && Next(s, PopFront, t)
    ensures Inv(t)
  {
    hide Chain, SyncedAreSafe, Joined, GroupOk, AllGroups, Number, GroupEnd;
    var d := |s.outcomes|;
    JoinedNext(s.arrived, d);
    if !s.failed {
      assert Joined(s.arrived[..d + 1]) == Joined(s.arrived[..d]);
      ChainUpTo(s.arrived, AllGroups(s.logs), d, d + 1);
    }
    PoppedAreSafe(s, t);
  }

  lemma PoppedAreSafe(s: State, t: State)
    requires SyncedAreSafe(s) && Shape(s) && Next(s, PopFront, t)
    ensures SyncedAreSafe(t)
  {
    hide Safe;
    forall i | 0 <= i < |t.outcomes| && t.outcomes[i] && t.arrived[i].batch.Some? && t.arrived[i].sync
      ensures Safe(t, i)
    {
      assert i < |s.outcomes| && s.outcomes[i];
      StaysSafe(s, t, i);
    }
  }

  lemma SwitchLogKeeps(s: State, t: State)
    requires Inv(s) && Next(s, SwitchLog, t)
    ensures Inv(t)
  {
    hide Chain, SyncedAreSafe, Joined, GroupOk, AllGroups, Number, GroupEnd;
    AllGroupsSwitch(s.logs);
    SyncedStaySafe(s, t);
  }

  lemma FlushKeeps(s: State, t: State)
    requires Inv(s) && Next(s, Flush, t)
    ensures Inv(t)
  {
    hide Chain, SyncedAreSafe, Joined, GroupOk, AllGroups, Number, GroupEnd;
    SyncedStaySafe(s, t);
  }

  lemma NextKeeps(s: State, step: Step, t: State)
    requires Inv(s) && Next(s, step, t)
    ensures Inv(t)
  {
    hide Inv, Next;
    match step
    case Arrive(r) => ArriveKeeps(s, r, t);
    case BeginGroup => BeginGroupKeeps(s, t);
    case AppendRecord => AppendRecordKeeps(s, t);
    case Sync(ok) => SyncKeeps(s, ok, t);
    case Insert => InsertKeeps(s, t);
    case Finish => FinishKeeps(s, t);
    case PopFront => PopFrontKeeps(s, t);
    case SwitchLog => SwitchLogKeeps(s, t);
    case Flush => FlushKeeps(s, t);
  }

  lemma InvIsSafe(s: State)
    requires Inv(s)
    ensures SyncedAreSafe(s)
  {
  }

  lemma InitHolds(s: State)
    requires Init(s)
    ensures Inv(s)
  {
    assert s.arrived[..0] == [];
    assert s.logs[..0] == [];
  }

  // ----- whole runs

  predicate IsRun(states: seq<State>, steps: seq<Step>) {
    && |states| == |steps| + 1 && Init(states[0])
    && forall i :: 0 <= i < |steps| ==> Next(states[i], steps[i], states[i + 1])
  }

  lemma {:induction false} EveryRunKeepsInv(states: seq<State>, steps: seq<Step>, i: nat)
    requires IsRun(states, steps) && i < |states|
    ensures Inv(states[i])
    decreases i
  {
    hide Inv, Next;
    if i == 0 {
      InitHolds(states[0]);
    } else {
      EveryRunKeepsInv(states, steps, i - 1);
      assert Next(states[i - 1], steps[i - 1], states[i - 1 + 1]);
      NextKeeps(states[i - 1], steps[i - 1], states[i]);
    }
  }

  datatype Store = Store(lastSequence: nat, inserted: seq<Numbered>)

  /** The plain way: one request after the other, each numbered and inserted on its own. */
  function OneAtATime(q: seq<Request>): Store {
    if q == [] then Store(0, [])
    else
      var before := OneAtATime(q[..|q| - 1]);
      var ops := BatchOf(q[|q| - 1]);
      Store(before.lastSequence + |ops|, before.inserted + Number(before.lastSequence + 1, ops))
  }

  lemma {:induction false} OneAtATimeIs(q: seq<Request>)
    ensures OneAtATime(q) == Store(|Joined(q)|, Number(1, Joined(q)))
  {
    if q != [] {
      OneAtATimeIs(q[..|q| - 1]);
      NumberConcat(1, Joined(q[..|q| - 1]), BatchOf(q[|q| - 1]));
    }
  }

  /** In every run, whenever nobody is writing: the store is what writing the requests one
      at a time in their order of arrival would have made, exactly those requests were
      told of success, and readers see all of them. */
  lemma GroupsWriteOneAtATime(states: seq<State>, steps: seq<Step>, i: nat)
    requires IsRun(states, steps) && i < |states| && states[i].phase.Idle?
    ensures var s := states[i];
      && s.applied <= |s.outcomes| <= |s.arrived|
      && s.inserted == OneAtATime(s.arrived[..s.applied]).inserted
      && (forall k :: 0 <= k < |s.outcomes| ==> (s.outcomes[k] <==> k < s.applied))
      && (!s.failed ==> s.applied == |s.outcomes| && s.lastSequence == OneAtATime(s.arrived[..s.applied]).lastSequence)
  {
    EveryRunKeepsInv(states, steps, i);
    OneAtATimeIs(states[i].arrived[..states[i].applied]);
    hide IsRun, Chain, OneAtATime, Joined, Number, SyncedAreSafe;
  }

  /** In every run a record that covers a request holds it, at its place in the group. */
  lemma CoveredIsMember(states: seq<State>, steps: seq<Step>, n: nat, l: nat, k: nat, i: nat)
    requires IsRun(states, steps) && n < |states| && InLog(states[n].logs, l, k, i)
    ensures var g := states[n].logs[l].groups[k];
      g.from <= i < g.from + |g.members| && i < |states[n].arrived| && g.members[i - g.from] == states[n].arrived[i]
  {
    hide *;
    EveryRunKeepsInv(states, steps, n);
    MemberAt(states[n], l, k, i);
  }

  lemma MemberAt(s: State, l: nat, k: nat, i: nat)
    requires Inv(s) && InLog(s.logs, l, k, i)
    ensures var g := s.logs[l].groups[k];
      g.from <= i < g.from + |g.members| && i < |s.arrived| && g.members[i - g.from] == s.arrived[i]
  {
    hide SyncedAreSafe, Data, Counters, PhaseOk, LastLogged;
    AllGroupsHas(s.logs, l, k);
    ChainGroupOk(s.arrived, AllGroups(s.logs), s.covered, s.logs[l].groups[k]);
    hide AllGroups, Chain, LedBySync, AllFit;
  }

  lemma {:induction false} ChainGroupOk(arrived: seq<Request>, gs: seq<Group>, upTo: nat, g: Group)
    requires Chain(arrived, gs, upTo) && g in gs
    ensures GroupOk(arrived, g)
    decreases |gs|
  {
    hide GroupOk, Joined;
    var n := |gs| - 1;
    if g != gs[n] {
      ChainGroupOk(arrived, gs[..n], gs[n].from, g);
    }
  }

  lemma {:induction false} AllGroupsHas(logs: seq<LogState>, l: nat, k: nat)
    requires l < |logs| && k < |logs[l].groups|
    ensures logs[l].groups[k] in AllGroups(logs)
  {
    if l < |logs| - 1 {
      AllGroupsHas(logs[..|logs| - 1], l, k);
    }
  }

  // ----- every writer gets its answer

  /** Steps of the writers that are in the queue already. */
  predicate IsProgress(step: Step) {
    !step.Arrive? && !step.SwitchLog? && !step.Flush?
  }

  /** How far the waiting writers are from their answers. */
  function Distance(s: State): nat
    requires |s.outcomes| <= |s.arrived|
  {
    6 * (|s.arrived| - |s.outcomes|) +
    match s.phase
    case Idle => 5
    case Leading(_) => 4
    case Logged(_) => 3
    case Durable(_) => 2
    case Inserted(_) => 1
    case Failing(_) => 1
  }

  /** The next group would run out of sequence numbers. */
  predicate OutOfNumbers(s: State) {
    s.phase.Idle? && Waiting(s) && s.arrived[|s.outcomes|].batch.Some? &&
    s.lastSequence + |Ops(NewGroup(s))| >= MAX_SEQUENCE
  }

  /** In every run: as long as a writer waits, some writer can go on, also after a failed
      sync, unless the sequence numbers are used up ... */
  lemma NeverStuck(states: seq<State>, steps: seq<Step>, n: nat) returns (step: Step, t: State)
    requires IsRun(states, steps) && n < |states| && Waiting(states[n])
    ensures states[n].failed || !OutOfNumbers(states[n]) ==> IsProgress(step) && Next(states[n], step, t)
  {
    EveryRunKeepsInv(states, steps, n);
    hide IsRun;
    step, t := GoOn(states[n]);
  }

  lemma GoOn(s: State) returns (step: Step, t: State)
    requires Shape(s) && PhaseOk(s) && Waiting(s)
    ensures s.failed || !OutOfNumbers(s) ==> IsProgress(step) && Next(s, step, t)
  {
    hide Joined, Number, AllSound, NewGroup, Queue;
    match s.phase
    case Idle =>
      if s.failed || s.arrived[|s.outcomes|].batch.None? {
        step := PopFront;
        t := s.(outcomes := s.outcomes + [!s.failed], applied := if s.failed then s.applied else |s.outcomes| + 1,
                covered := if s.failed then s.covered else |s.outcomes| + 1);
      } else {
        step := BeginGroup;
        t := s.(phase := Leading(NewGroup(s)));
      }
    case Leading(g) =>
      step := AppendRecord;
      t := s.(phase := Logged(g), logs := AppendGroup(s.logs, g), covered := End(g));
    case Logged(g) =>
      step := if g.members[0].sync then Sync(true) else Insert;
      t := if g.members[0].sync then s.(phase := Durable(g), logs := SyncLast(s.logs)) else WithInserted(s, g);
    case Durable(g) =>
      step, t := Insert, WithInserted(s, g);
    case Inserted(g) =>
      step, t := Finish, WithAnswers(s, g);
    case Failing(g) =>
      step, t := Finish, WithAnswers(s, g);
  }

  function WithInserted(s: State, g: Group): State {
    s.(phase := Inserted(g), inserted := s.inserted + Number(g.first, Ops(g)), applied := End(g))
  }

  function WithAnswers(s: State, g: Group): State {
    s.(phase := Idle, lastSequence := s.lastSequence + |Ops(g)|,
       outcomes := s.outcomes + Answers(|g.members|, s.phase.Inserted?), failed := s.phase.Failing?)
  }

  /** ... and every such step brings the answers nearer, so that all writers get one. */
  lemma StepsAdvance(states: seq<State>, steps: seq<Step>, n: nat)
    requires IsRun(states, steps) && n < |steps| && IsProgress(steps[n])
    ensures |states[n].outcomes| <= |states[n].arrived| && |states[n + 1].outcomes| <= |states[n + 1].arrived|
    ensures Distance(states[n + 1]) < Distance(states[n])
  {
    EveryRunKeepsInv(states, steps, n);
    EveryRunKeepsInv(states, steps, n + 1);
    assert Next(states[n], steps[n], states[n + 1]);
    hide IsRun;
    StepAdvances(states[n], steps[n], states[n + 1]);
  }

  lemma StepAdvances(s: State, step: Step, t: State)
    requires Shape(s) && PhaseOk(s) && Shape(t) && Next(s, step, t) && IsProgress(step)
    ensures Distance(t) < Distance(s)
  {
    hide Joined, Number, AllSound, NewGroup, Queue, AppendGroup, SyncLast;
  }
}
