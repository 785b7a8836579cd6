/** The thread pool protocol of libuv (src/threadpool.c) as a state machine.  A step is what
    one thread does under the mutexes before it lets go of them; a turn of the worker loop
    that ends in `continue` counts as a step of its own, which only allows more runs. */
module ThreadPools {
  import opened Wrappers

  /** w->work: the callback, NULL once it has run, or uv__cancelled. */
  datatype Work = HasWork | Done | Cancelled

  datatype Item = SlowSentinel | Exit | Job(id: nat)

  /** Asleep: in uv_cond_wait.  Woken: signalled, but without the mutex yet.  Returning: the
      work is done and handed to the loop, but the mutex is not taken yet. */
  datatype Worker = Ready | Asleep | Woken | Running(id: nat, slow: bool) | Returning(slow: bool) | Exited

  datatype State = State(
    wq: seq<Item>,
    slowPending: seq<nat>,
    idle: nat,
    slowRunning: nat,
    workers: seq<Worker>,
    loopQueue: seq<nat>,
    moved: seq<nat>,
    cancelling: Option<nat>,
    work: map<nat, Work>,
    started: set<nat>,
    delivered: seq<(nat, bool)>)

  datatype Step =
    | Submit(id: nat, slow: bool, choice: nat)
    | PostExit(choice: nat)
    | Turn(k: nat, choice: nat)
    | Wake(k: nat)
    | SpuriousWake(k: nat)
    | Finish(k: nat)
    | Return(k: nat)
    | CancelTake(id: nat, ok: bool)
    | CancelPut
    | Drain
    | Deliver

  function Threshold(n: nat): nat { (n + 1) / 2 }

  predicate AtThreshold(s: State) {
    s.slowRunning >= Threshold(|s.workers|)
  }

  /** The condition on which a worker waits. */
  predicate Blocked(s: State) {
    s.wq == [] || (s.wq == [SlowSentinel] && AtThreshold(s))
  }

  /** uv_cond_signal, if there are idle threads: one sleeper is woken, if any sleeps. */
  predicate GoodChoice(workers: seq<Worker>, choice: nat) {
    Asleep in workers ==> choice < |workers| && workers[choice] == Asleep
  }

  function Signal(s: State, choice: nat): State {
    if s.idle > 0 && choice < |s.workers| && s.workers[choice] == Asleep
    then s.(workers := s.workers[choice := Woken])
    else s
  }

  /** post. */
  function Post(s: State, item: Item, choice: nat): State {
    Signal(s.(wq := s.wq + [item]), choice)
  }

  function PostSlow(s: State, id: nat, choice: nat): State {
    var t := s.(slowPending := s.slowPending + [id]);
    if SlowSentinel in s.wq then t else Post(t, SlowSentinel, choice)
  }

  function SetWorker(s: State, k: nat, w: Worker): State
    requires k < |s.workers|
  {
    s.(workers := s.workers[k := w])
  }

  /** One turn of the worker loop of thread `k`, from the test of the waiting condition. */
  function TurnOf(s: State, k: nat, choice: nat): State
    requires k < |s.workers| && s.workers[k] == Ready
  {
    if Blocked(s) then SetWorker(s, k, Asleep).(idle := s.idle + 1)
    else
      var rest := s.wq[1..];
      match s.wq[0]
      case Exit => SignalAll(SetWorker(s, k, Exited), choice)
      case Job(id) =>
        SetWorker(s, k, Running(id, false)).(wq := rest, started := s.started + {id})
      case SlowSentinel =>
        if AtThreshold(s) then s.(wq := rest + [SlowSentinel])
        else if s.slowPending == [] then s.(wq := rest)
        else
          var id := s.slowPending[0];
          var t := SetWorker(s, k, Running(id, true))
            .(wq := rest, slowPending := s.slowPending[1..], slowRunning := s.slowRunning + 1, started := s.started + {id});
          if t.slowPending == [] then t else Post(t, SlowSentinel, choice)
  }

  /** The signal of a worker that exits does not look at the number of idle threads. */
  function SignalAll(s: State, choice: nat): State {
    if choice < |s.workers| && s.workers[choice] == Asleep then s.(workers := s.workers[choice := Woken]) else s
  }

  /** The request is linked into some queue: the test !QUEUE_EMPTY(&w->wq). */
  predicate Linked(s: State, id: nat) {
    Job(id) in s.wq || id in s.slowPending || id in s.loopQueue || id in s.moved
  }

  /** The test of uv__work_cancel. */
  predicate CanCancel(s: State, id: nat)
    requires id in s.work
  {
    Linked(s, id) && s.work[id] != Done
  }

  function Without<T(==)>(q: seq<T>, x: T): seq<T> {
    if q == [] then [] else if q[0] == x then q[1..] else [q[0]] + Without(q[1..], x)
  }

  predicate IsDelivered(s: State, id: nat) {
    (id, true) in s.delivered || (id, false) in s.delivered
  }

  predicate Init(s: State) {
    && s.wq == [] && s.slowPending == [] && s.idle == 0 && s.slowRunning == 0
    && s.workers != [] && (forall w :: w in s.workers ==> w == Ready)
    && s.loopQueue == [] && s.moved == [] && s.cancelling == None
    && s.work == map[] && s.started == {} && s.delivered == []
  }

  predicate Next(s: State, step: Step, t: State) {
    match step
    case Submit(id, slow, choice) =>
      && id !in s.work && GoodChoice(s.workers, choice)
      && var u := s.(work := s.work[id := HasWork]);
      t == if slow then PostSlow(u, id, choice) else Post(u, Job(id), choice)
    case PostExit(choice) =>
      GoodChoice(s.workers, choice) && t == Post(s, Exit, choice)
    case Turn(k, choice) =>
      && k < |s.workers| && s.workers[k] == Ready && GoodChoice(s.workers, choice)
      && t == TurnOf(s, k, choice)
    case Wake(k) =>
      && k < |s.workers| && s.workers[k] == Woken && s.idle > 0
      && t == SetWorker(s, k, Ready).(idle := s.idle - 1)
    case SpuriousWake(k) =>
      && k < |s.workers| && s.workers[k] == Asleep
      && t == SetWorker(s, k, Woken)
    case Finish(k) =>
      && k < |s.workers| && s.workers[k].Running?
      && var id := s.workers[k].id;
      t == SetWorker(s, k, Returning(s.workers[k].slow)).(work := s.work[id := Done], loopQueue := s.loopQueue + [id])
    case Return(k) =>
      && k < |s.workers| && s.workers[k].Returning? && (s.workers[k].slow ==> s.slowRunning > 0)
      && t == SetWorker(s, k, Ready).(slowRunning := if s.workers[k].slow then s.slowRunning - 1 else s.slowRunning)
    case CancelTake(id, ok) =>
      && s.cancelling == None && id in s.work && !IsDelivered(s, id)
      && ok == CanCancel(s, id)
      && t == if ok then s.(wq := Without(s.wq, Job(id)), slowPending := Without(s.slowPending, id),
                            loopQueue := Without(s.loopQueue, id), moved := Without(s.moved, id), cancelling := Some(id))
              else s
    case CancelPut =>
      && s.cancelling.Some?
      && t == s.(work := s.work[s.cancelling.value := Cancelled], loopQueue := s.loopQueue + [s.cancelling.value],
        cancelling := None)
    case Drain =>
      s.moved == [] && t == s.(moved := s.loopQueue, loopQueue := [])
    case Deliver =>
      && s.moved != [] && s.moved[0] in s.work && s.cancelling == None
      && t == s.(moved := s.moved[1..], delivered := s.delivered + [(s.moved[0], s.work[s.moved[0]] == Cancelled)])
  }

  ghost predicate IsTrace(states: seq<State>, steps: seq<Step>) {
    && |states| == |steps| + 1 && Init(states[0])
    && forall i :: 0 <= i < |steps| ==> Next(states[i], steps[i], states[i + 1])
  }

  // ---------- counting ----------

  function SlowIn(w: Worker): nat {
    if (w.Running? || w.Returning?) && w.slow then 1 else 0
  }

  function SlowCount(workers: seq<Worker>): nat {
    if workers == [] then 0 else SlowCount(workers[..|workers| - 1]) + SlowIn(workers[|workers| - 1])
  }

  function IdleIn(w: Worker): nat {
    if w.Asleep? || w.Woken? then 1 else 0
  }

  function IdleCount(workers: seq<Worker>): nat {
    if workers == [] then 0 else IdleCount(workers[..|workers| - 1]) + IdleIn(workers[|workers| - 1])
  }

  function Sentinels(wq: seq<Item>): nat {
    multiset(wq)[SlowSentinel]
  }

  /** In how many places a request is. */
  function Places(s: State, id: nat): nat {
    multiset(s.wq)[Job(id)] + multiset(s.slowPending)[id]
      + multiset(s.workers)[Running(id, true)] + multiset(s.workers)[Running(id, false)]
      + multiset(s.loopQueue)[id] + multiset(s.moved)[id]
      + (if s.cancelling == Some(id) then 1 else 0)
      + multiset(s.delivered)[(id, true)] + multiset(s.delivered)[(id, false)]
  }

  // ---------- the invariant ----------

  /** Every submitted request is in exactly one place. */
  ghost predicate OnePlaceEach(s: State) {
    forall id: nat :: Places(s, id) == if id in s.work then 1 else 0
  }

  ghost predicate CountsOk(s: State) {
    && s.slowRunning == SlowCount(s.workers) <= Threshold(|s.workers|)
    && s.idle == IdleCount(s.workers)
  }

  /** Slow work that waits is announced in the queue, once. */
  ghost predicate SentinelOk(s: State) {
    && Sentinels(s.wq) <= 1
    && (s.slowPending != [] ==> SlowSentinel in s.wq)
  }

  /** What w->work says agrees with what happened to the request. */
  ghost predicate StatusOk(s: State) {
    && s.started <= s.work.Keys
    && (forall id :: id in s.work ==> match s.work[id] {
         case HasWork => true
         case Done => id in s.started
         case Cancelled => id !in s.started
       })
    && (forall id: nat :: Job(id) in s.wq || id in s.slowPending ==>
         id in s.work && s.work[id] == HasWork && id !in s.started)
    && (s.cancelling.Some? ==>
         s.cancelling.value in s.work && s.work[s.cancelling.value] != Done && s.cancelling.value !in s.started)
    && (forall k :: 0 <= k < |s.workers| && s.workers[k].Running? ==>
         s.workers[k].id in s.started && s.workers[k].id in s.work && s.work[s.workers[k].id] == HasWork)
    && (forall id :: id in s.loopQueue || id in s.moved ==> id in s.work && s.work[id] != HasWork)
    && (forall id, c :: (id, c) in s.delivered ==> (c <==> id !in s.started))
  }

  predicate Awake(w: Worker) {
    w.Ready? || w.Woken? || w.Running? || w.Returning?
  }

  /** Work that can be run is never left to sleepers. */
  ghost predicate NoStall(s: State) {
    !Blocked(s) ==> (exists w :: w in s.workers && Awake(w)) || (forall w :: w in s.workers ==> w.Exited?)
  }

  ghost predicate Inv(s: State) {
    s.workers != [] && OnePlaceEach(s) && CountsOk(s) && SentinelOk(s) && StatusOk(s) && NoStall(s)
  }

  // ---------- every step keeps it ----------

  lemma HeadOff<T>(q: seq<T>)
    requires q != []
    ensures multiset(q) == multiset{q[0]} + multiset(q[1..])
    ensures forall x :: x in q <==> x == q[0] || x in q[1..]
  {
    assert q == [q[0]] + q[1..];
  }

  lemma {:induction false} WithoutOne<T>(q: seq<T>, x: T)
    ensures multiset(Without(q, x)) == multiset(q) - multiset{x}
  {
    if q != [] {
      HeadOff(q);
      WithoutOne(q[1..], x);
      var rest := Without(q[1..], x);
      if q[0] != x {
        assert multiset([q[0]] + rest) == multiset{q[0]} + multiset(rest);
      }
    }
  }

  lemma WithoutMembers<T>(q: seq<T>, x: T)
    ensures forall y :: y in Without(q, x) ==> y in q
    ensures forall y :: y in q && y != x ==> y in Without(q, x)
  {
    WithoutOne(q, x);
    forall y
      ensures y in Without(q, x) ==> y in q
      ensures y in q && y != x ==> y in Without(q, x)
    {
      assert y in Without(q, x) <==> y in multiset(Without(q, x));
      assert y in q <==> y in multiset(q);
    }
  }

  lemma {:induction false} CountsAfter(workers: seq<Worker>, k: nat, w: Worker)
    requires k < |workers|
    ensures SlowCount(workers[k := w]) == SlowCount(workers) - SlowIn(workers[k]) + SlowIn(w)
    ensures IdleCount(workers[k := w]) == IdleCount(workers) - IdleIn(workers[k]) + IdleIn(w)
  {
    var n := |workers| - 1;
    if k < n {
      CountsAfter(workers[..n], k, w);
      assert workers[k := w][..n] == workers[..n][k := w];
    } else {
      assert workers[k := w][..n] == workers[..n];
    }
  }

  lemma {:induction false} IdleIfAsleep(workers: seq<Worker>, k: nat)
    requires k < |workers| && IdleIn(workers[k]) == 1
    ensures IdleCount(workers) > 0
  {
    var n := |workers| - 1;
    if k < n {
      IdleIfAsleep(workers[..n], k);
    }
  }

  /** Waking one sleeper, or nobody, changes nothing else. */
  ghost predicate SameButWoken(s: State, t: State, choice: nat) {
    || t == s
    || (choice < |s.workers| && s.workers[choice] == Asleep && t == s.(workers := s.workers[choice := Woken]))
  }

  lemma WokenKeeps(s: State, t: State, choice: nat)
    requires SameButWoken(s, t, choice)
    ensures OnePlaceEach(s) ==> OnePlaceEach(t)
    ensures CountsOk(s) ==> CountsOk(t)
    ensures SentinelOk(s) ==> SentinelOk(t)
    ensures StatusOk(s) ==> StatusOk(t)
  {
    if t != s {
      CountsAfter(s.workers, choice, Woken);
      forall id: nat
        ensures Places(t, id) == Places(s, id)
      {
      }
    }
  }

  /** Whoever queues work leaves somebody awake, unless every thread has exited. */
  lemma SignalPreventsStall(s: State, choice: nat)
    requires CountsOk(s) && GoodChoice(s.workers, choice)
    ensures NoStall(Signal(s, choice)) && SameButWoken(s, Signal(s, choice), choice)
  {
    var t := Signal(s, choice);
    if Asleep in s.workers {
      IdleIfAsleep(s.workers, choice);
      assert t.workers[choice] == Woken;
      assert Awake(Woken) && Woken in t.workers;
    } else if w :| w in s.workers && !w.Exited? {
      assert Awake(w);
    }
  }

  /** A new item at the end of the queue. */
  lemma PostKeeps(s: State, item: Item, choice: nat)
    requires s.workers != [] && CountsOk(s) && GoodChoice(s.workers, choice)
    ensures var u := s.(wq := s.wq + [item]); var t := Post(s, item, choice);
      && (OnePlaceEach(u) ==> OnePlaceEach(t)) && CountsOk(t) && (SentinelOk(u) ==> SentinelOk(t))
      && (StatusOk(u) ==> StatusOk(t)) && NoStall(t) && t.workers != []
  {
    var u := s.(wq := s.wq + [item]);
    SignalPreventsStall(u, choice);
    WokenKeeps(u, Post(s, item, choice), choice);
  }

  /** A request that nobody knows is in no place, and then in the one it is put into. */
  lemma SubmittedPlaces(s: State, id: nat, slow: bool, u: State)
    requires OnePlaceEach(s) && id !in s.work
    requires u == s.(work := s.work[id := HasWork], wq := u.wq, slowPending := u.slowPending)
    requires if slow then u.slowPending == s.slowPending + [id] && (u.wq == s.wq || u.wq == s.wq + [SlowSentinel])
             else u.slowPending == s.slowPending && u.wq == s.wq + [Job(id)]
    ensures OnePlaceEach(u)
  {
    forall i: nat
      ensures Places(u, i) == (if i in u.work then 1 else 0)
    {
      assert Places(s, i) == (if i in s.work then 1 else 0);
    }
  }

  lemma SubmittedStatus(s: State, id: nat, u: State)
    requires StatusOk(s) && id !in s.work
    requires u == s.(work := s.work[id := HasWork], wq := u.wq, slowPending := u.slowPending)
    requires forall i: nat :: Job(i) in u.wq ==> i == id || Job(i) in s.wq
    requires forall i :: i in u.slowPending ==> i == id || i in s.slowPending
    ensures StatusOk(u)
  {
  }

  lemma SubmittedSentinel(s: State, id: nat, slow: bool, u: State)
    requires SentinelOk(s)
    requires u == s.(work := s.work[id := HasWork], wq := u.wq, slowPending := u.slowPending)
    requires if slow then u.slowPending == s.slowPending + [id] &&
      u.wq == (if SlowSentinel in s.wq then s.wq else s.wq + [SlowSentinel])
             else u.slowPending == s.slowPending && u.wq == s.wq + [Job(id)]
    ensures SentinelOk(u)
  {
  }

  lemma SubmitKeeps(s: State, step: Step, t: State)
    requires Inv(s) && step.Submit? && Next(s, step, t)
    ensures Inv(t)
  {
    hide OnePlaceEach, StatusOk, SentinelOk, CountsOk, NoStall, Places;
    var id := step.id;
    var u := s.(work := s.work[id := HasWork], slowPending := if step.slow then s.slowPending + [id] else s.slowPending);
    var item := if step.slow then SlowSentinel else Job(id);
    SameCounts(s, u);
    if step.slow && SlowSentinel in s.wq {
      SubmittedPlaces(s, id, step.slow, u);
      SubmittedStatus(s, id, u);
      SubmittedSentinel(s, id, step.slow, u);
      SameQueue(s, u);
    } else {
      var v := u.(wq := u.wq + [item]);
      SubmittedPlaces(s, id, step.slow, v);
      SubmittedStatus(s, id, v);
      SubmittedSentinel(s, id, step.slow, v);
      PostKeeps(u, item, step.choice);
    }
  }

  lemma SameQueue(s: State, u: State)
    requires NoStall(s) && u.workers == s.workers && u.wq == s.wq && u.slowRunning == s.slowRunning
    ensures NoStall(u)
  {
  }

  lemma SameCounts(s: State, u: State)
    requires CountsOk(s) && u.workers == s.workers && u.idle == s.idle && u.slowRunning == s.slowRunning
    ensures CountsOk(u)
  {
  }

  lemma ExitKeeps(s: State, step: Step, t: State)
    requires Inv(s) && step.PostExit? && Next(s, step, t)
    ensures Inv(t)
  {
    ExitQueued(s, s.(wq := s.wq + [Exit]));
    hide OnePlaceEach, SentinelOk, StatusOk;
    PostKeeps(s, Exit, step.choice);
  }

  lemma ExitQueued(s: State, u: State)
    requires OnePlaceEach(s) && SentinelOk(s) && StatusOk(s) && u == s.(wq := s.wq + [Exit])
    ensures OnePlaceEach(u) && SentinelOk(u) && StatusOk(u)
  {
    forall i: nat
      ensures Places(u, i) == Places(s, i)
    {
    }
  }

  /** A worker that does not hold a request changes its state. */
  lemma WorkerKeeps(s: State, k: nat, w: Worker, t: State)
    requires k < |s.workers| && !s.workers[k].Running? && !w.Running?
    requires t == s.(workers := s.workers[k := w], idle := t.idle, slowRunning := t.slowRunning)
    ensures OnePlaceEach(s) ==> OnePlaceEach(t)
    ensures SentinelOk(s) ==> SentinelOk(t)
    ensures StatusOk(s) ==> StatusOk(t)
  {
    forall i: nat
      ensures Places(t, i) == Places(s, i)
    {
    }
  }

  /** The worker finds nothing that it may run, and sleeps. */
  lemma SleepKeeps(s: State, k: nat, t: State)
    requires Inv(s) && k < |s.workers| && s.workers[k] == Ready && Blocked(s)
    requires t == SetWorker(s, k, Asleep).(idle := s.idle + 1)
    ensures Inv(t)
  {
    WorkerKeeps(s, k, Asleep, t);
    CountsAfter(s.workers, k, Asleep);
    hide OnePlaceEach, SentinelOk, StatusOk;
  }

  lemma AwakeWorker(s: State, k: nat)
    requires k < |s.workers| && Awake(s.workers[k])
    ensures NoStall(s)
  {
    assert s.workers[k] in s.workers;
  }

  lemma TurnExitKeeps(s: State, k: nat, choice: nat)
    requires Inv(s) && k < |s.workers| && s.workers[k] == Ready && GoodChoice(s.workers, choice)
    requires s.wq != [] && s.wq[0] == Exit
    ensures Inv(SignalAll(SetWorker(s, k, Exited), choice))
  {
    var u := SetWorker(s, k, Exited);
    var t := SignalAll(u, choice);
    WorkerKeeps(s, k, Exited, u);
    CountsAfter(s.workers, k, Exited);
    WokenKeeps(u, t, choice);
    hide OnePlaceEach, SentinelOk, StatusOk;
    if Asleep in s.workers {
      assert t.workers[choice] == Woken;
      AwakeWorker(t, choice);
    } else {
      forall w | w in t.workers && !w.Exited?
        ensures Awake(w)
      {
        var j :| 0 <= j < |t.workers| && t.workers[j] == w;
        assert s.workers[j] in s.workers;
      }
    }
  }

  /** A worker takes the job at the head of the queue. */
  lemma TakeJobKeeps(s: State, k: nat, id: nat, t: State)
    requires Inv(s) && k < |s.workers| && s.workers[k] == Ready
    requires s.wq != [] && s.wq[0] == Job(id)
    requires t == SetWorker(s, k, Running(id, false)).(wq := s.wq[1..], started := s.started + {id})
    ensures Inv(t)
  {
    hide OnePlaceEach, StatusOk, SentinelOk, NoStall;
    JobTaken(s, k, id, t);
    CountsAfter(s.workers, k, Running(id, false));
    AwakeWorker(t, k);
  }

  lemma JobTaken(s: State, k: nat, id: nat, t: State)
    requires OnePlaceEach(s) && StatusOk(s) && SentinelOk(s) && k < |s.workers| && s.workers[k] == Ready
    requires s.wq != [] && s.wq[0] == Job(id)
    requires t == SetWorker(s, k, Running(id, false)).(wq := s.wq[1..], started := s.started + {id})
    ensures OnePlaceEach(t) && StatusOk(t) && SentinelOk(t)
  {
    HeadOff(s.wq);
    JobTakenPlaces(s, k, id, t);
    OnlyThere(s, id);
    hide OnePlaceEach, Places;
    TakenStatus(s, k, id, false, t);
  }

  lemma JobTakenPlaces(s: State, k: nat, id: nat, t: State)
    requires OnePlaceEach(s) && k < |s.workers| && s.workers[k] == Ready && s.wq != [] && s.wq[0] == Job(id)
    requires t == SetWorker(s, k, Running(id, false)).(wq := s.wq[1..], started := s.started + {id})
    ensures OnePlaceEach(t)
  {
    HeadOff(s.wq);
    forall i: nat
      ensures Places(t, i) == Places(s, i)
    {
    }
  }

  /** A request that waits is in no other place. */
  lemma OnlyThere(s: State, id: nat)
    requires OnePlaceEach(s) && StatusOk(s) && (Job(id) in s.wq || id in s.slowPending)
    ensures id in s.work && s.work[id] == HasWork && id !in s.started
    ensures id !in s.loopQueue && id !in s.moved && s.cancelling != Some(id)
    ensures (id, true) !in s.delivered && (id, false) !in s.delivered
    ensures multiset(s.wq)[Job(id)] + multiset(s.slowPending)[id] == 1
  {
    assert Places(s, id) == (if id in s.work then 1 else 0);
    assert Job(id) in multiset(s.wq) || id in multiset(s.slowPending);
  }

  /** The request moves from a queue to a worker. */
  lemma TakenStatus(s: State, k: nat, id: nat, slow: bool, t: State)
    requires StatusOk(s) && OnePlaceEach(s) && k < |s.workers|
    requires Job(id) in s.wq || id in s.slowPending
    requires t == s.(workers := s.workers[k := Running(id, slow)], wq := t.wq, slowPending := t.slowPending,
                     slowRunning := t.slowRunning, started := s.started + {id})
    requires forall i: nat :: Job(i) in t.wq ==> i != id && Job(i) in s.wq
    requires forall i :: i in t.slowPending ==> i != id && i in s.slowPending
    ensures StatusOk(t)
  {
    OnlyThere(s, id);
  }

  /** The sentinel goes to the end of the queue, or leaves it when no slow work waits. */
  lemma SentinelMoves(s: State, k: nat, t: State)
    requires Inv(s) && k < |s.workers| && s.workers[k] == Ready && s.wq != [] && s.wq[0] == SlowSentinel
    requires t == s.(wq := s.wq[1..] + [SlowSentinel]) || (s.slowPending == [] && t == s.(wq := s.wq[1..]))
    ensures Inv(t)
  {
    hide NoStall, CountsOk;
    SentinelMovesQueue(s, t);
    SameCounts(s, t);
    AwakeWorker(t, k);
  }

  lemma SentinelMovesQueue(s: State, t: State)
    requires OnePlaceEach(s) && StatusOk(s) && SentinelOk(s) && s.wq != [] && s.wq[0] == SlowSentinel
    requires t == s.(wq := s.wq[1..] + [SlowSentinel]) || (s.slowPending == [] && t == s.(wq := s.wq[1..]))
    ensures OnePlaceEach(t) && StatusOk(t) && SentinelOk(t)
  {
    HeadOff(s.wq);
    assert t.wq == s.wq[1..] || multiset(t.wq) == multiset(s.wq);
    forall i: nat
      ensures Places(t, i) == Places(s, i)
    {
    }
  }

  /** The worker takes the first slow request. */
  lemma TakeSlowKeeps(s: State, k: nat, choice: nat, t: State)
    requires Inv(s) && k < |s.workers| && s.workers[k] == Ready && GoodChoice(s.workers, choice)
    requires s.wq != [] && s.wq[0] == SlowSentinel && !AtThreshold(s) && s.slowPending != [] && !Blocked(s)
    requires t == TurnOf(s, k, choice)
    ensures Inv(t)
  {
    hide OnePlaceEach, StatusOk, SentinelOk, NoStall, Places, GoodChoice;
    var id := s.slowPending[0];
    var u := SetWorker(s, k, Running(id, true))
      .(wq := s.wq[1..], slowPending := s.slowPending[1..], slowRunning := s.slowRunning + 1, started := s.started + {id});
    CountsAfter(s.workers, k, Running(id, true));
    SlowTaken(s, k, id, u);
    if u.slowPending == [] {
      AwakeWorker(u, k);
    } else {
      SentinelBack(u, u.(wq := u.wq + [SlowSentinel]));
      StillGoodChoice(s.workers, k, Running(id, true), choice);
      PostKeeps(u, SlowSentinel, choice);
    }
  }

  lemma StillGoodChoice(workers: seq<Worker>, k: nat, w: Worker, choice: nat)
    requires k < |workers| && workers[k] == Ready && w != Asleep && GoodChoice(workers, choice)
    ensures GoodChoice(workers[k := w], choice)
  {
    if Asleep in workers[k := w] {
      var j :| 0 <= j < |workers| && workers[k := w][j] == Asleep;
      assert workers[j] == Asleep;
    }
  }

  lemma SlowTaken(s: State, k: nat, id: nat, u: State)
    requires OnePlaceEach(s) && StatusOk(s) && SentinelOk(s) && k < |s.workers| && s.workers[k] == Ready
    requires s.wq != [] && s.wq[0] == SlowSentinel && s.slowPending != [] && id == s.slowPending[0]
    requires u == SetWorker(s, k, Running(id, true))
      .(wq := s.wq[1..], slowPending := s.slowPending[1..], slowRunning := s.slowRunning + 1, started := s.started + {id})
    ensures OnePlaceEach(u) && StatusOk(u)
    ensures SlowSentinel !in u.wq && (u.slowPending == [] ==> SentinelOk(u))
  {
    SlowTakenPlaces(s, k, id, u);
    HeadOff(s.wq);
    HeadOff(s.slowPending);
    OnlyThere(s, id);
    NotInRest(s.slowPending, id);
    SentinelGone(s.wq);
    hide OnePlaceEach, Places;
    TakenStatus(s, k, id, true, u);
  }

  lemma SlowTakenPlaces(s: State, k: nat, id: nat, u: State)
    requires OnePlaceEach(s) && k < |s.workers| && s.workers[k] == Ready
    requires s.wq != [] && s.wq[0] == SlowSentinel && s.slowPending != [] && id == s.slowPending[0]
    requires u == SetWorker(s, k, Running(id, true))
      .(wq := s.wq[1..], slowPending := s.slowPending[1..], slowRunning := s.slowRunning + 1, started := s.started + {id})
    ensures OnePlaceEach(u)
  {
    HeadOff(s.wq);
    HeadOff(s.slowPending);
    forall i: nat
      ensures Places(u, i) == Places(s, i)
    {
    }
  }

  lemma SentinelGone(wq: seq<Item>)
    requires wq != [] && wq[0] == SlowSentinel && Sentinels(wq) <= 1
    ensures SlowSentinel !in wq[1..] && Sentinels(wq[1..]) == 0
  {
    HeadOff(wq);
    assert SlowSentinel !in multiset(wq[1..]);
  }

  lemma NotInRest(q: seq<nat>, id: nat)
    requires q != [] && q[0] == id && multiset(q)[id] <= 1
    ensures id !in q[1..]
  {
    HeadOff(q);
    assert id !in multiset(q[1..]);
  }

  lemma SentinelBack(u: State, v: State)
    requires OnePlaceEach(u) && StatusOk(u) && SlowSentinel !in u.wq && v == u.(wq := u.wq + [SlowSentinel])
    ensures OnePlaceEach(v) && StatusOk(v) && SentinelOk(v)
  {
    forall i: nat
      ensures Places(v, i) == Places(u, i)
    {
    }
  }

  lemma TurnKeeps(s: State, step: Step, t: State)
    requires Inv(s) && step.Turn? && Next(s, step, t)
    ensures Inv(t)
  {
    var k := step.k;
    if Blocked(s) {
      SleepKeeps(s, k, t);
    } else {
      match s.wq[0]
      case Exit => TurnExitKeeps(s, k, step.choice);
      case Job(id) => TakeJobKeeps(s, k, id, t);
      case SlowSentinel =>
        if AtThreshold(s) || s.slowPending == [] {
          SentinelMoves(s, k, t);
        } else {
          TakeSlowKeeps(s, k, step.choice, t);
        }
    }
  }

  lemma WakeKeeps(s: State, step: Step, t: State)
    requires Inv(s) && (step.Wake? || step.SpuriousWake? || step.Return?) && Next(s, step, t)
    ensures Inv(t)
  {
    var k := step.k;
    WorkerKeeps(s, k, t.workers[k], t);
    CountsAfter(s.workers, k, t.workers[k]);
    hide OnePlaceEach, SentinelOk, StatusOk;
    AwakeWorker(t, k);
  }

  /** The work is done: the request goes back to its loop. */
  lemma FinishKeeps(s: State, step: Step, t: State)
    requires Inv(s) && step.Finish? && Next(s, step, t)
    ensures Inv(t)
  {
    hide OnePlaceEach, StatusOk, NoStall;
    var k := step.k;
    var w := s.workers[k];
    FinishedPlaces(s, k, t);
    FinishedStatus(s, k, t);
    CountsAfter(s.workers, k, Returning(w.slow));
    AwakeWorker(t, k);
  }

  lemma FinishedPlaces(s: State, k: nat, t: State)
    requires OnePlaceEach(s) && StatusOk(s) && k < |s.workers| && s.workers[k].Running?
    requires t == SetWorker(s, k, Returning(s.workers[k].slow))
      .(work := s.work[s.workers[k].id := Done], loopQueue := s.loopQueue + [s.workers[k].id])
    ensures OnePlaceEach(t)
  {
    forall i: nat
      ensures Places(t, i) == Places(s, i) && (i in t.work <==> i in s.work)
    {
    }
  }

  lemma FinishedStatus(s: State, k: nat, t: State)
    requires OnePlaceEach(s) && StatusOk(s) && k < |s.workers| && s.workers[k].Running?
    requires t == SetWorker(s, k, Returning(s.workers[k].slow))
      .(work := s.work[s.workers[k].id := Done], loopQueue := s.loopQueue + [s.workers[k].id])
    ensures StatusOk(t)
  {
    var id := s.workers[k].id;
    RunsOnce(s, k);
  }

  /** A running request is in no queue, and runs on one thread. */
  lemma RunsOnce(s: State, k: nat)
    requires OnePlaceEach(s) && k < |s.workers| && s.workers[k].Running?
    ensures var id := s.workers[k].id;
      && !Linked(s, id) && s.cancelling != Some(id)
      && forall j :: 0 <= j < |s.workers| && j != k ==> !(s.workers[j].Running? && s.workers[j].id == id)
  {
    var id := s.workers[k].id;
    assert Places(s, id) == (if id in s.work then 1 else 0);
    assert s.workers[k] in multiset(s.workers);
    forall j | 0 <= j < |s.workers| && j != k
      ensures !(s.workers[j].Running? && s.workers[j].id == id)
    {
      if s.workers[j].Running? && s.workers[j].id == id {
        TwoRunners(s.workers, j, k);
      }
    }
    assert Job(id) !in multiset(s.wq) && id !in multiset(s.slowPending);
    assert id !in multiset(s.loopQueue) && id !in multiset(s.moved);
  }

  lemma TwoRunners(workers: seq<Worker>, j: nat, k: nat)
    requires j < |workers| && k < |workers| && j != k && workers[j].Running? && workers[k].Running?
    requires workers[j].id == workers[k].id
    ensures multiset(workers)[Running(workers[k].id, true)] + multiset(workers)[Running(workers[k].id, false)] >= 2
  {
    var others := workers[k := Ready];
    assert others[j] == workers[j];
    assert workers[j] in multiset(others);
    assert multiset(workers) == multiset(others) - multiset{Ready} + multiset{workers[k]};
  }

  lemma CancelTakeKeeps(s: State, step: Step, t: State)
    requires Inv(s) && step.CancelTake? && Next(s, step, t)
    ensures Inv(t)
  {
    if step.ok {
      TakenPlaces(s, step.id, t);
      TakenAwayStatus(s, step.id, t);
      TakenQueue(s, step.id, t);
    }
  }

  lemma TakenPlaces(s: State, id: nat, t: State)
    requires OnePlaceEach(s) && id in s.work && s.cancelling == None && Linked(s, id)
    requires t == s.(wq := Without(s.wq, Job(id)), slowPending := Without(s.slowPending, id),
      loopQueue := Without(s.loopQueue, id), moved := Without(s.moved, id), cancelling := Some(id))
    ensures OnePlaceEach(t)
  {
    assert Places(s, id) == 1;
    assert Job(id) in multiset(s.wq) || id in multiset(s.slowPending) || id in multiset(s.loopQueue) ||
      id in multiset(s.moved);
    forall i: nat
      ensures Places(t, i) == Places(s, i)
    {
      WithoutCount(s.wq, Job(id), Job(i));
      WithoutCount(s.slowPending, id, i);
      WithoutCount(s.loopQueue, id, i);
      WithoutCount(s.moved, id, i);
    }
  }

  lemma WithoutCount<T>(q: seq<T>, x: T, y: T)
    ensures multiset(Without(q, x))[y] == if x == y && x in multiset(q) then multiset(q)[y] - 1 else multiset(q)[y]
  {
    WithoutOne(q, x);
  }

  lemma TakenAwayStatus(s: State, id: nat, t: State)
    requires StatusOk(s) && OnePlaceEach(s) && id in s.work && s.cancelling == None && CanCancel(s, id)
    requires t == s.(wq := Without(s.wq, Job(id)), slowPending := Without(s.slowPending, id),
      loopQueue := Without(s.loopQueue, id), moved := Without(s.moved, id), cancelling := Some(id))
    ensures StatusOk(t)
  {
    WithoutMembers(s.wq, Job(id));
    WithoutMembers(s.slowPending, id);
    WithoutMembers(s.loopQueue, id);
    WithoutMembers(s.moved, id);
  }

  lemma TakenQueue(s: State, id: nat, t: State)
    requires SentinelOk(s) && NoStall(s) && CountsOk(s)
    requires t == s.(wq := Without(s.wq, Job(id)), slowPending := Without(s.slowPending, id),
      loopQueue := Without(s.loopQueue, id), moved := Without(s.moved, id), cancelling := Some(id))
    ensures SentinelOk(t) && NoStall(t) && CountsOk(t)
  {
    WithoutMembers(s.wq, Job(id));
    WithoutOne(s.wq, Job(id));
    WithoutMembers(s.slowPending, id);
    if Blocked(s) && s.wq != [] {
      assert Without(s.wq, Job(id)) == [SlowSentinel];
    }
    if SlowSentinel in s.wq {
      assert SlowSentinel in t.wq;
    }
  }

  lemma CancelPutKeeps(s: State, step: Step, t: State)
    requires Inv(s) && step.CancelPut? && Next(s, step, t)
    ensures Inv(t)
  {
    hide OnePlaceEach, StatusOk;
    CancelPutPlaces(s, t);
    CancelPutStatus(s, t);
  }

  lemma CancelPutPlaces(s: State, t: State)
    requires OnePlaceEach(s) && StatusOk(s) && s.cancelling.Some? && Next(s, CancelPut, t)
    ensures OnePlaceEach(t)
  {
    forall i: nat
      ensures Places(t, i) == Places(s, i) && (i in t.work <==> i in s.work)
    {
    }
  }

  lemma CancelPutStatus(s: State, t: State)
    requires OnePlaceEach(s) && StatusOk(s) && s.cancelling.Some? && Next(s, CancelPut, t)
    ensures StatusOk(t)
  {
    NotElsewhere(s, s.cancelling.value);
    hide OnePlaceEach;
  }

  lemma NotElsewhere(s: State, id: nat)
    requires OnePlaceEach(s) && s.cancelling == Some(id)
    ensures !Linked(s, id) && forall k :: 0 <= k < |s.workers| && s.workers[k].Running? ==> s.workers[k].id != id
  {
    assert Places(s, id) == (if id in s.work then 1 else 0);
    forall k | 0 <= k < |s.workers| && s.workers[k].Running?
      ensures s.workers[k].id != id
    {
      assert s.workers[k] in multiset(s.workers);
    }
    assert Job(id) !in multiset(s.wq) && id !in multiset(s.slowPending);
    assert id !in multiset(s.loopQueue) && id !in multiset(s.moved);
  }

  lemma LoopKeeps(s: State, step: Step, t: State)
    requires Inv(s) && (step.Drain? || step.Deliver?) && Next(s, step, t)
    ensures Inv(t)
  {
    if step.Deliver? {
      DeliveredPlaces(s, t);
      DeliveredStatus(s, t);
    } else {
      DrainedPlaces(s, t);
    }
    hide OnePlaceEach, Places;
  }

  lemma DeliveredPlaces(s: State, t: State)
    requires OnePlaceEach(s) && s.moved != []
    requires s.moved[0] in s.work
    requires t == s.(moved := s.moved[1..], delivered := s.delivered + [(s.moved[0], s.work[s.moved[0]] == Cancelled)])
    ensures OnePlaceEach(t) && forall id :: id in t.moved ==> id in s.moved
  {
    HeadOff(s.moved);
    forall i: nat
      ensures Places(t, i) == Places(s, i)
    {
    }
  }

  lemma DeliveredStatus(s: State, t: State)
    requires OnePlaceEach(s) && StatusOk(s) && s.moved != [] && s.moved[0] in s.work
    requires t == s.(moved := s.moved[1..], delivered := s.delivered + [(s.moved[0], s.work[s.moved[0]] == Cancelled)])
    ensures StatusOk(t)
  {
    HeadOff(s.moved);
    assert s.moved[0] in s.moved;
  }

  lemma DrainedPlaces(s: State, t: State)
    requires OnePlaceEach(s) && s.moved == [] && t == s.(moved := s.loopQueue, loopQueue := [])
    ensures OnePlaceEach(t)
  {
    forall i: nat
      ensures Places(t, i) == Places(s, i)
    {
    }
  }

  lemma StepKeeps(s: State, step: Step, t: State)
    requires Inv(s) && Next(s, step, t)
    ensures Inv(t)
  {
    hide Inv, Next;
    match step
    case Submit(_, _, _) => SubmitKeeps(s, step, t);
    case PostExit(_) => ExitKeeps(s, step, t);
    case Turn(_, _) => TurnKeeps(s, step, t);
    case Wake(_) => WakeKeeps(s, step, t);
    case SpuriousWake(_) => WakeKeeps(s, step, t);
    case Finish(_) => FinishKeeps(s, step, t);
    case Return(_) => WakeKeeps(s, step, t);
    case CancelTake(_, _) => CancelTakeKeeps(s, step, t);
    case CancelPut => CancelPutKeeps(s, step, t);
    case Drain => LoopKeeps(s, step, t);
    case Deliver => LoopKeeps(s, step, t);
  }

  lemma {:induction false} NoneIdle(workers: seq<Worker>)
    requires forall w :: w in workers ==> w == Ready
    ensures SlowCount(workers) == 0 && IdleCount(workers) == 0
    ensures forall id: nat, slow: bool :: multiset(workers)[Running(id, slow)] == 0
  {
    if workers != [] {
      var init := workers[..|workers| - 1];
      assert workers == init + [workers[|workers| - 1]];
      assert workers[|workers| - 1] in workers;
      forall w | w in init
        ensures w == Ready
      {
        assert w in workers;
      }
      NoneIdle(init);
    }
  }

  lemma InitEstablishes(s: State)
    requires Init(s)
    ensures Inv(s)
  {
    NoneIdle(s.workers);
  }

  lemma {:induction false} EveryRunKeeps(states: seq<State>, steps: seq<Step>, n: nat)
    requires IsTrace(states, steps) && n <= |steps|
    ensures Inv(states[n])
  {
    if n == 0 {
      InitEstablishes(states[0]);
    } else {
      EveryRunKeeps(states, steps, n - 1);
      StepKeeps(states[n - 1], steps[n - 1], states[n]);
    }
  }

  /** In every run: slow work that waits is announced in the queue, the slow work that runs
      stays within its share of the threads, and a request is delivered at most once. */
  lemma SlowWorkAndDelivery(states: seq<State>, steps: seq<Step>, n: nat, id: nat)
    requires IsTrace(states, steps) && n <= |steps|
    ensures var s := states[n];
      && (s.slowPending != [] ==> SlowSentinel in s.wq)
      && SlowCount(s.workers) <= (|s.workers| + 1) / 2
      && multiset(s.delivered)[(id, true)] + multiset(s.delivered)[(id, false)] <= 1
      && (Linked(s, id) || s.cancelling == Some(id) ==> !IsDelivered(s, id))
  {
    EveryRunKeeps(states, steps, n);
    var s := states[n];
    assert Places(s, id) == (if id in s.work then 1 else 0);
    if Linked(s, id) {
      assert Job(id) in multiset(s.wq) || id in multiset(s.slowPending) || id in multiset(s.loopQueue) ||
        id in multiset(s.moved);
    }
    assert IsDelivered(s, id) ==> (id, true) in multiset(s.delivered) || (id, false) in multiset(s.delivered);
  }

  /** In every run: a request that is not delivered yet can be cancelled if and only if no
      worker has started it, and it is delivered as cancelled in no other case. */
  lemma CancelledIffNotStarted(states: seq<State>, steps: seq<Step>, n: nat, id: nat)
    requires IsTrace(states, steps) && n <= |steps| && id in states[n].work
    ensures var s := states[n];
      && (!IsDelivered(s, id) && s.cancelling == None ==> (CanCancel(s, id) <==> id !in s.started))
      && ((id, true) in s.delivered ==> id !in s.started)
      && ((id, false) in s.delivered ==> id in s.started)
  {
    EveryRunKeeps(states, steps, n);
    var s := states[n];
    if !IsDelivered(s, id) && s.cancelling == None {
      assert Places(s, id) == 1;
      if !Linked(s, id) {
        assert Job(id) !in multiset(s.wq) && id !in multiset(s.slowPending);
        assert id !in multiset(s.loopQueue) && id !in multiset(s.moved);
        assert (id, true) !in multiset(s.delivered) && (id, false) !in multiset(s.delivered);
        var w := if Running(id, true) in multiset(s.workers) then Running(id, true) else Running(id, false);
        assert w in multiset(s.workers);
        var k :| 0 <= k < |s.workers| && s.workers[k] == w;
      }
    }
  }

  /** In every run: as long as there is work that may be run, some thread is awake to run it.
      What may not be run is slow work alone, while half of the threads, rounded up, run some. */
  lemma WorkIsNeverStranded(states: seq<State>, steps: seq<Step>, n: nat)
    requires IsTrace(states, steps) && n <= |steps| && states[n].wq != []
    requires states[n].wq != [SlowSentinel] || SlowCount(states[n].workers) < (|states[n].workers| + 1) / 2
    ensures (exists w :: w in states[n].workers && Awake(w)) || (forall w :: w in states[n].workers ==> w.Exited?)
  {
    EveryRunKeeps(states, steps, n);
  }

  /** A turn puts its worker to sleep if and only if the queue is empty, or holds slow work
      alone while half of the threads, rounded up, run some. */
  lemma TurnSleeps(s: State, k: nat, choice: nat, t: State)
    requires CountsOk(s) && k < |s.workers| && s.workers[k] == Ready && t == TurnOf(s, k, choice)
    ensures |t.workers| == |s.workers|
    ensures (t.workers[k] == Asleep <==>
        s.wq == [] || (s.wq == [SlowSentinel] && SlowCount(s.workers) >= (|s.workers| + 1) / 2))
  {
    hide SlowCount, IdleCount;
  }

  lemma SleepsIff(states: seq<State>, steps: seq<Step>, n: nat, k: nat, choice: nat)
    requires IsTrace(states, steps) && n < |steps| && steps[n] == Turn(k, choice)
    ensures k < |states[n].workers| == |states[n + 1].workers|
    ensures var s := states[n];
      states[n + 1].workers[k] == Asleep <==>
        s.wq == [] || (s.wq == [SlowSentinel] && SlowCount(s.workers) >= (|s.workers| + 1) / 2)
  {
    EveryRunKeeps(states, steps, n);
    hide OnePlaceEach, StatusOk, SentinelOk, NoStall, TurnOf, SlowCount;
    assert Next(states[n], steps[n], states[n + 1]);
    TurnSleeps(states[n], k, choice, states[n + 1]);
  }

  /** A turn that finds the announcement of slow work at the head of the queue runs the first
      slow request if fewer than half of the threads, rounded up, run some, and announces the
      next one if there is one; otherwise the announcement goes to the end. */
  lemma TurnRunsSlowWork(s: State, k: nat, choice: nat, t: State)
    requires CountsOk(s) && k < |s.workers| && s.workers[k] == Ready && t == TurnOf(s, k, choice)
    requires s.wq != [] && s.wq[0] == SlowSentinel && s.slowPending != []
    ensures |t.workers| == |s.workers|
    ensures
      if SlowCount(s.workers) < (|s.workers| + 1) / 2 then
        && t.workers[k] == Running(s.slowPending[0], true) && t.slowPending == s.slowPending[1..]
        && t.wq == s.wq[1..] + (if |s.slowPending| > 1 then [SlowSentinel] else [])
        && s.slowPending[0] in t.started
      else
        && t.slowPending == s.slowPending && t.started == s.started
        && t.wq == s.wq[1..] + [SlowSentinel]
  {
    hide SlowCount, IdleCount;
  }

  lemma SlowWorkStartsIff(states: seq<State>, steps: seq<Step>, n: nat, k: nat, choice: nat)
    requires IsTrace(states, steps) && n < |steps| && steps[n] == Turn(k, choice)
    requires states[n].wq != [] && states[n].wq[0] == SlowSentinel && states[n].slowPending != []
    ensures k < |states[n].workers| == |states[n + 1].workers|
    ensures var s, t := states[n], states[n + 1];
      if SlowCount(s.workers) < (|s.workers| + 1) / 2 then
        && t.workers[k] == Running(s.slowPending[0], true) && t.slowPending == s.slowPending[1..]
        && t.wq == s.wq[1..] + (if |s.slowPending| > 1 then [SlowSentinel] else [])
        && s.slowPending[0] in t.started
      else
        && t.slowPending == s.slowPending && t.started == s.started
        && t.wq == s.wq[1..] + [SlowSentinel]
  {
    EveryRunKeeps(states, steps, n);
    hide OnePlaceEach, StatusOk, SentinelOk, NoStall, TurnOf, SlowCount;
    assert Next(states[n], steps[n], states[n + 1]);
    TurnRunsSlowWork(states[n], k, choice, states[n + 1]);
  }

  /** The first `n` workers run slow requests, and there is no other work. */
  ghost predicate SlowRun(s: State, n: nat) {
    && n <= |s.workers| && s.wq == [] && s.slowPending == [] && s.slowRunning == n
    && (forall k :: 0 <= k < |s.workers| ==> s.workers[k] == if k < n then Running(k, true) else Ready)
    && (forall id :: id in s.work ==> id < n)
  }

  /** Half of the threads, rounded up, can all run slow work. */
  lemma {:induction false} SlowShareIsReached(threads: nat, n: nat) returns (states: seq<State>, steps: seq<Step>)
    requires threads > 0 && n <= (threads + 1) / 2
    ensures IsTrace(states, steps) && |states[0].workers| == threads
    ensures SlowRun(states[|steps|], n) && |states[|steps|].workers| == threads
    ensures SlowCount(states[|steps|].workers) == n
  {
    hide Next, SlowRun, TurnOf, PostSlow, SlowCount, Inv;
    if n == 0 {
      var s := Idle(threads);
      states, steps := [s], [];
    } else {
      states, steps := SlowShareIsReached(threads, n - 1);
      var t, u := SubmitAndRun(states[|steps|], n - 1);
      states, steps := Longer(states, steps, Submit(n - 1, true, 0), t);
      states, steps := Longer(states, steps, Turn(n - 1, 0), u);
    }
    EveryRunKeeps(states, steps, |steps|);
    RunningCounted(states[|steps|], n);
  }

  lemma Idle(threads: nat) returns (s: State)
    requires threads > 0
    ensures Init(s) && |s.workers| == threads && SlowRun(s, 0)
  {
    s := State([], [], 0, 0, seq(threads, _ => Ready), [], [], None, map[], {}, []);
  }

  /** One more slow request, and the worker that runs it. */
  lemma SubmitAndRun(s: State, n: nat) returns (t: State, u: State)
    requires SlowRun(s, n) && n < (|s.workers| + 1) / 2
    ensures Next(s, Submit(n, true, 0), t) && Next(t, Turn(n, 0), u)
    ensures SlowRun(u, n + 1) && |u.workers| == |s.workers|
  {
    t := SubmitOne(s, n);
    u := RunOne(s, n, t);
    hide Next;
  }

  lemma SubmitOne(s: State, n: nat) returns (t: State)
    requires SlowRun(s, n) && n < (|s.workers| + 1) / 2
    ensures t == s.(work := s.work[n := HasWork], slowPending := [n], wq := [SlowSentinel])
    ensures Next(s, Submit(n, true, 0), t)
  {
    NobodySleeps(s, n);
    t := PostSlow(s.(work := s.work[n := HasWork]), n, 0);
  }

  lemma RunOne(s: State, n: nat, t: State) returns (u: State)
    requires SlowRun(s, n) && n < (|s.workers| + 1) / 2
    requires t == s.(work := s.work[n := HasWork], slowPending := [n], wq := [SlowSentinel])
    ensures Next(t, Turn(n, 0), u)
    ensures u == s.(work := t.work, workers := s.workers[n := Running(n, true)], slowRunning := n + 1,
      started := s.started + {n})
  {
    NobodySleeps(s, n);
    u := TurnOf(t, n, 0);
  }

  lemma RunningCounted(s: State, n: nat)
    requires SlowRun(s, n) && Inv(s)
    ensures SlowCount(s.workers) == n
  {
  }

  lemma NobodySleeps(s: State, n: nat)
    requires SlowRun(s, n)
    ensures Asleep !in s.workers
  {
  }

  lemma Longer(states: seq<State>, steps: seq<Step>, step: Step, t: State)
    returns (states': seq<State>, steps': seq<Step>)
    requires IsTrace(states, steps) && Next(states[|steps|], step, t)
    ensures IsTrace(states', steps') && states' == states + [t] && steps' == steps + [step]
  {
    states', steps' := states + [t], steps + [step];
    hide Next;
    forall i | 0 <= i < |steps'|
      ensures Next(states'[i], steps'[i], states'[i + 1])
    {
      if i < |steps| {
        assert Next(states[i], steps[i], states[i + 1]);
      }
    }
  }

  /** The globals of the pool and the queue of one loop, with the critical sections that
      change them. */
  class Pool {
    var wq: seq<Item>
    var slowPending: seq<nat>
    var idle: nat
    var slowRunning: nat
    var workers: seq<Worker>
    var loopQueue: seq<nat>
    var moved: seq<nat>
    var cancelling: Option<nat>
    var work: map<nat, Work>
    ghost var started: set<nat>
    var delivered: seq<(nat, bool)>

    ghost function Abs(): State
      reads this
    {
      State(wq, slowPending, idle, slowRunning, workers, loopQueue, moved, cancelling, work, started, delivered)
    }

    /** init_threads. */
    constructor (nthreads: nat)
      requires nthreads > 0
      ensures Init(Abs()) && Inv(Abs()) && |workers| == nthreads
    {
      wq, slowPending, idle, slowRunning := [], [], 0, 0;
      workers := seq(nthreads, _ => Ready);
      loopQueue, moved, cancelling, work, started, delivered := [], [], None, map[], {}, [];
      new;
      InitEstablishes(Abs());
    }

    /** uv_cond_signal, guarded by the number of idle threads. */
    method SignalOne(choice: nat)
      modifies this`workers
      ensures Abs() == Signal(old(Abs()), choice)
    {
      if idle > 0 && choice < |workers| && workers[choice] == Asleep {
        workers := workers[choice := Woken];
      }
    }

    /** uv__work_submit and post. */
    method Submit(id: nat, slow: bool, choice: nat)
      requires Inv(Abs()) && id !in work && GoodChoice(workers, choice)
      modifies this
      ensures Next(old(Abs()), Step.Submit(id, slow, choice), Abs()) && Inv(Abs())
    {
      hide Inv;
      work := work[id := HasWork];
      if slow {
        slowPending := slowPending + [id];
        if SlowSentinel !in wq {
          wq := wq + [SlowSentinel];
          SignalOne(choice);
        }
      } else {
        wq := wq + [Job(id)];
        SignalOne(choice);
      }
      StepKeeps(old(Abs()), Step.Submit(id, slow, choice), Abs());
    }

    /** The sentinel at the head of the queue: it goes back while too much slow work runs;
        otherwise the first slow request runs, and the sentinel is queued again for the next. */
    method TurnSentinel(k: nat, choice: nat)
      requires k < |workers| && workers[k] == Ready && !Blocked(Abs()) && wq[0] == SlowSentinel
      modifies this
      ensures Abs() == TurnOf(old(Abs()), k, choice)
    {
      wq := wq[1..];
      if slowRunning >= Threshold(|workers|) {
        wq := wq + [SlowSentinel];
      } else if slowPending != [] {
        var id := slowPending[0];
        slowRunning := slowRunning + 1;
        slowPending := slowPending[1..];
        workers := workers[k := Running(id, true)];
        started := started + {id};
        if slowPending != [] {
          wq := wq + [SlowSentinel];
          SignalOne(choice);
        }
      }
    }

    /** One turn of the loop in `worker`. */
    method Turn(k: nat, choice: nat)
      requires Inv(Abs()) && k < |workers| && workers[k] == Ready && GoodChoice(workers, choice)
      modifies this
      ensures Next(old(Abs()), Step.Turn(k, choice), Abs()) && Inv(Abs())
      ensures |workers| == |old(workers)|
      ensures workers[k] == Asleep <==>
        old(wq) == [] || (old(wq) == [SlowSentinel] && SlowCount(old(workers)) >= (|workers| + 1) / 2)
    {
      TurnSleeps(Abs(), k, choice, TurnOf(Abs(), k, choice));
      hide Inv, SlowCount, IdleCount, TurnOf;
      TakeTurn(k, choice);
      StepKeeps(old(Abs()), Step.Turn(k, choice), Abs());
    }

    method TakeTurn(k: nat, choice: nat)
      requires k < |workers| && workers[k] == Ready
      modifies this
      ensures Abs() == TurnOf(old(Abs()), k, choice)
    {
      var threshold := Threshold(|workers|);
      if wq == [] || (wq == [SlowSentinel] && slowRunning >= threshold) {
        idle := idle + 1;
        workers := workers[k := Asleep];
      } else {
        var q := wq[0];
        match q {
          case Exit =>
            workers := workers[k := Exited];
            if choice < |workers| && workers[choice] == Asleep {
              workers := workers[choice := Woken];
            }
          case Job(id) =>
            wq := wq[1..];
            workers := workers[k := Running(id, false)];
            started := started + {id};
          case SlowSentinel => TurnSentinel(k, choice);
        }
      }
    }

    /** After the work: hand the request to its loop, then, in the next critical section,
        give back the share of slow work. */
    method Finish(k: nat)
      requires Inv(Abs()) && k < |workers| && workers[k].Running?
      modifies this
      ensures Next(old(Abs()), Step.Finish(k), Abs()) && Inv(Abs())
    {
      hide Inv;
      var id, slow := workers[k].id, workers[k].slow;
      work := work[id := Done];
      loopQueue := loopQueue + [id];
      workers := workers[k := Returning(slow)];
      StepKeeps(old(Abs()), Step.Finish(k), Abs());
    }

    method Return(k: nat)
      requires Inv(Abs()) && k < |workers| && workers[k].Returning?
      modifies this
      ensures Next(old(Abs()), Step.Return(k), Abs()) && Inv(Abs())
    {
      SlowWorkerCounted(workers, k);
      if workers[k].slow {
        slowRunning := slowRunning - 1;
      }
      workers := workers[k := Ready];
      hide Inv;
      StepKeeps(old(Abs()), Step.Return(k), Abs());
    }

    /** uv__work_cancel, up to the point where both mutexes are released ... */
    method CancelTake(id: nat) returns (ok: bool)
      requires Inv(Abs()) && cancelling == None && id in work && !IsDelivered(Abs(), id)
      modifies this
      ensures Next(old(Abs()), Step.CancelTake(id, ok), Abs()) && Inv(Abs())
    {
      hide Inv;
      ok := (Job(id) in wq || id in slowPending || id in loopQueue || id in moved) && work[id] != Done;
      if ok {
        wq, slowPending := Without(wq, Job(id)), Without(slowPending, id);
        loopQueue, moved := Without(loopQueue, id), Without(moved, id);
        cancelling := Some(id);
      }
      StepKeeps(old(Abs()), Step.CancelTake(id, ok), Abs());
    }

    /** ... and the rest of it. */
    method CancelPut()
      requires Inv(Abs()) && cancelling.Some?
      modifies this
      ensures Next(old(Abs()), Step.CancelPut, Abs()) && Inv(Abs())
    {
      hide Inv;
      work := work[cancelling.value := Cancelled];
      loopQueue := loopQueue + [cancelling.value];
      cancelling := None;
      StepKeeps(old(Abs()), Step.CancelPut, Abs());
    }

    /** uv__work_done: empty the queue of the loop, calling back every request in order. */
    method WorkDone()
      requires Inv(Abs()) && moved == [] && cancelling == None
      modifies this
      ensures Inv(Abs()) && moved == [] && loopQueue == []
      ensures |delivered| == |old(delivered)| + |old(loopQueue)| && delivered[..|old(delivered)|] == old(delivered)
      ensures forall i :: 0 <= i < |old(loopQueue)| ==>
        delivered[|old(delivered)| + i] == (old(loopQueue)[i], old(loopQueue)[i] !in old(started))
    {
      hide Inv;
      moved := loopQueue;
      loopQueue := [];
      StepKeeps(old(Abs()), Drain, Abs());
      ghost var n := 0;
      while moved != []
        invariant Inv(Abs()) && loopQueue == [] && cancelling == None && started == old(started)
        invariant n <= |old(loopQueue)| && moved == old(loopQueue)[n..]
        invariant |delivered| == |old(delivered)| + n && delivered[..|old(delivered)|] == old(delivered)
        invariant forall i :: 0 <= i < n ==>
          delivered[|old(delivered)| + i] == (old(loopQueue)[i], old(loopQueue)[i] !in old(started))
      {
        ghost var before := Abs();
        MovedStatus(before);
        delivered := delivered + [(moved[0], work[moved[0]] == Cancelled)];
        moved := moved[1..];
        n := n + 1;
        StepKeeps(before, Deliver, Abs());
      }
    }
  }

  lemma MovedStatus(s: State)
    requires Inv(s) && s.moved != []
    ensures s.moved[0] in s.work && (s.work[s.moved[0]] == Cancelled <==> s.moved[0] !in s.started)
  {
    assert s.moved[0] in s.moved;
  }

  lemma {:induction false} SlowWorkerCounted(workers: seq<Worker>, k: nat)
    requires k < |workers|
    ensures SlowIn(workers[k]) == 1 ==> SlowCount(workers) > 0
  {
    var n := |workers| - 1;
    if k < n {
      SlowWorkerCounted(workers[..n], k);
    }
  }
}
