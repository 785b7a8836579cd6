/** Timers of an event loop (src/timer.c): a heap ordered by due time and, among timers due
    at the same time, by the order in which they were started. */
module Timers {
  import opened Heaps

  /** (uint64_t) -1, where due times saturate. */
  const MAX_TIME: nat := 0xFFFF_FFFF_FFFF_FFFF

  /** clamped_timeout: addition of 64-bit words, with overflow turned into the largest one. */
  function DueTime(now: nat, timeout: nat): (r: nat)
    requires now <= MAX_TIME && timeout <= MAX_TIME
    ensures r == if now + timeout <= MAX_TIME then now + timeout else MAX_TIME
  {
    var sum := (now + timeout) % 0x1_0000_0000_0000_0000;
    if sum < timeout then MAX_TIME else sum
  }

  /** Running timers have different start numbers, all below the counter. */
  ghost predicate StartedBefore(nodes: set<HeapNode>, counter: nat)
    reads nodes`startId
  {
    && (forall n :: n in nodes ==> n.startId < counter)
    && (forall m, n :: m in nodes && n in nodes && m.startId == n.startId ==> m == n)
  }

  lemma OneMoreStarted(nodes: set<HeapNode>, counter: nat, n: HeapNode)
    requires StartedBefore(nodes, counter) && n.startId == counter
    ensures StartedBefore(nodes, counter + 1) && StartedBefore(nodes + {n}, counter + 1)
  {
  }

  /** Exactly the active ones among the handles are in the heap. */
  ghost predicate ActiveIn(handles: set<HeapNode>, nodes: set<HeapNode>)
    reads handles`active, handles`repeat
  {
    nodes <= handles && forall h :: h in handles ==> (h.active <==> h in nodes) && h.repeat <= MAX_TIME
  }

  class Loop {
    const heap: Heap
    var time: nat
    var timerCounter: nat
    /** All timers that belong to the loop. */
    ghost var handles: set<HeapNode>

    ghost predicate Valid()
      reads this, heap, heap.slots, handles
    {
      && time <= MAX_TIME
      && heap.Valid()
      && ActiveIn(handles, heap.Nodes())
      && StartedBefore(heap.Nodes(), timerCounter)
    }

    constructor ()
      ensures Valid() && time == 0 && timerCounter == 0 && handles == {} && heap.Nodes() == {} && fresh(heap)
    {
      heap := new Heap();
      time, timerCounter, handles := 0, 0, {};
    }

    /** uv_timer_stop. */
    method Stop(t: HeapNode)
      requires Valid() && t in handles
      modifies t`active, heap, heap.Nodes()`left, heap.Nodes()`right, heap.Nodes()`parent
      ensures Valid() && !t.active && heap.Nodes() == old(heap.Nodes()) - {t}
    {
      hide AllOrdered, Wired, AllDifferent;
      if !t.active {
        return;
      }
      heap.Remove(t);
      t.active := false;
    }

    /** uv_timer_start, with a callback; a timer that already runs is stopped first. */
    method Start(t: HeapNode, timeout: nat, repeat: nat)
      requires Valid() && t in handles && timeout <= MAX_TIME && repeat <= MAX_TIME
      modifies this`timerCounter, t, heap, heap.Nodes()`left, heap.Nodes()`right, heap.Nodes()`parent
      ensures Valid() && t.active && t.hasCallback && t.repeat == repeat
      ensures t.timeout == DueTime(time, timeout) && t.startId == old(timerCounter)
      ensures timerCounter == old(timerCounter) + 1
      ensures heap.Nodes() == old(heap.Nodes()) + {t}
    {
      if t.active {
        Stop(t);
      }
      Arm(t, DueTime(time, timeout), repeat);
    }

    /** The part of uv_timer_start for a timer that does not run. */
    method Arm(t: HeapNode, due: nat, repeat: nat)
      requires Valid() && t in handles && !t.active && repeat <= MAX_TIME
      modifies this`timerCounter, t, heap, heap.Nodes()`left, heap.Nodes()`right, heap.Nodes()`parent
      ensures Valid() && t.active && t.hasCallback && t.repeat == repeat
      ensures t.timeout == due && t.startId == old(timerCounter)
      ensures timerCounter == old(timerCounter) + 1
      ensures heap.Nodes() == old(heap.Nodes()) + {t}
    {
      hide AllOrdered, Wired, AllDifferent, Heap.Complete, StartedBefore;
      assert t !in heap.slots;
      SetKey(t, due, repeat);
      heap.Insert(t);
      t.active := true;
    }

    method SetKey(t: HeapNode, due: nat, repeat: nat)
      requires heap.Valid() && StartedBefore(heap.Nodes(), timerCounter) && t !in heap.slots
      modifies this`timerCounter, t`hasCallback, t`repeat, t`timeout, t`startId
      ensures heap.Valid() && t.hasCallback && t.repeat == repeat
      ensures t.timeout == due && t.startId == old(timerCounter)
      ensures timerCounter == old(timerCounter) + 1
      ensures StartedBefore(heap.Nodes() + {t}, timerCounter)
    {
      hide Heap.Valid;
      t.hasCallback := true;
      t.timeout := due;
      t.repeat := repeat;
      t.startId := timerCounter;
      OneMoreStarted(heap.Nodes(), timerCounter, t);
      timerCounter := timerCounter + 1;
    }

    /** uv_timer_again: a repeating timer starts over, any other is left alone. */
    method Again(t: HeapNode) returns (ok: bool)
      requires Valid() && t in handles
      modifies this`timerCounter, t, heap, heap.Nodes()`left, heap.Nodes()`right, heap.Nodes()`parent
      ensures Valid() && (ok <==> old(t.hasCallback))
      ensures t.hasCallback == old(t.hasCallback) && t.repeat == old(t.repeat)
      ensures ok && t.repeat > 0 ==>
        && heap.Nodes() == old(heap.Nodes()) + {t} && t.active && t.timeout == DueTime(time, t.repeat)
        && t.startId == old(timerCounter) && timerCounter == old(timerCounter) + 1
      ensures !(ok && t.repeat > 0) ==>
        && heap.Nodes() == old(heap.Nodes()) && t.active == old(t.active) && t.timeout == old(t.timeout)
        && t.startId == old(t.startId) && timerCounter == old(timerCounter)
    {
      if !t.hasCallback {
        return false;
      }
      if t.repeat > 0 {
        Stop(t);
        Start(t, t.repeat, t.repeat);
      }
      return true;
    }

    /** The due times and start numbers of the running timers. */
    ghost function Keys(): map<HeapNode, Key>
      reads this, heap, heap.Nodes()`timeout, heap.Nodes()`startId
    {
      map n | n in heap.Nodes() :: Key(n.timeout, n.startId)
    }

    /** The intervals of the running timers. */
    ghost function Repeats(): map<HeapNode, nat>
      reads this, heap, heap.Nodes()`repeat
    {
      map n | n in heap.Nodes() :: n.repeat
    }

    /** Stop the first timer, and start it over if it repeats. */
    method Fire() returns (timer: HeapNode)
      requires Valid() && time < MAX_TIME && heap.min != null && heap.min.timeout <= time && heap.min.hasCallback
      modifies this`timerCounter, heap.min, heap, heap.Nodes()`left, heap.Nodes()`right, heap.Nodes()`parent
      ensures Valid() && timer == old(heap.min) && timer in old(heap.Nodes()) && timer.hasCallback
      ensures forall n :: n in old(heap.Nodes()) ==> !old(LessThan(n, heap.min))
      ensures timer.repeat == old(heap.min.repeat)
      ensures if timer.repeat > 0 then
          && heap.Nodes() == old(heap.Nodes()) && timer.active && timer.timeout == DueTime(time, timer.repeat)
          && timer.startId == old(timerCounter) && timerCounter == old(timerCounter) + 1
        else
          heap.Nodes() == old(heap.Nodes()) - {timer} && !timer.active && timerCounter == old(timerCounter)
      ensures OneFired(old(Keys()), Keys(), timer, time, timer.repeat, old(timerCounter), timerCounter)
    {
      hide Heap.Valid, ActiveIn, StartedBefore, OneFired;
      timer := heap.min;
      MinIsEarliest();
      ghost var before, counter := Keys(), timerCounter;
      Stop(timer);
      var _ := Again(timer);
      FirstFired(before, Keys(), timer, time, timer.repeat, counter, timerCounter);
    }

    lemma MinIsEarliest()
      requires Valid() && heap.min != null
      ensures heap.min in heap.Nodes() && heap.min in handles && heap.min.active && heap.min.repeat <= MAX_TIME
      ensures forall n :: n in heap.Nodes() && n != heap.min ==> KeyLess(Keys()[heap.min], Keys()[n])
      ensures forall n :: n in heap.Nodes() ==> !LessThan(n, heap.min)
    {
      heap.MinIsFirst();
    }

    lemma AllHandles()
      requires Valid()
      ensures heap.Nodes() <= handles && AsGiven(Repeats())
    {
    }

    /** uv__run_timers, with callbacks that leave timers alone: every timer that is due fires
        once, in order.  Those that repeat start over in that order, their interval after the
        present time; the others are out of the heap.  Timers that are not due stay as they are. */
    method RunTimers(ghost keys: map<HeapNode, Key>, ghost repeats: map<HeapNode, nat>) returns (fired: seq<HeapNode>)
      requires Valid() && time < MAX_TIME && keys == Keys() && repeats == Repeats()
      requires forall n :: n in heap.Nodes() ==> n.hasCallback
      modifies this`timerCounter, heap, heap.Nodes()
      ensures Valid() && forall n :: n in heap.Nodes() ==> n.timeout > time
      ensures forall n :: n in fired <==> n in keys && keys[n].timeout <= time
      ensures FiredInOrder(fired, keys)
      ensures forall n :: n in keys ==> n.repeat == repeats[n]
      ensures forall n :: n in keys && n !in fired ==>
        n in heap.Nodes() && n.active && Key(n.timeout, n.startId) == keys[n]
      ensures forall n :: n in fired && n.repeat == 0 ==> n !in heap.Nodes() && !n.active
      ensures forall n :: n in fired && n.repeat > 0 ==>
        && n in heap.Nodes() && n.active && n.timeout == DueTime(time, n.repeat)
        && old(timerCounter) <= n.startId < timerCounter
      ensures forall i, j :: 0 <= i < j < |fired| && fired[i].repeat > 0 && fired[j].repeat > 0 ==>
        fired[i].startId < fired[j].startId
    {
      ghost var start := timerCounter;
      fired := FireAll(keys, repeats);
      assert Progress(fired, keys, repeats, start);
      hide Heap.Valid, ActiveIn, StartedBefore, Restarted;
      heap.MinIsFirst();
      NothingLeft(fired, keys, Keys(), time);
      AllFired(fired, keys, repeats, start);
    }

    /** What holds between two timers that fire. */
    ghost predicate Progress(fired: seq<HeapNode>, keys: map<HeapNode, Key>, repeats: map<HeapNode, nat>, start: nat)
      reads this, heap, heap.Nodes(), repeats.Keys
    {
      && (forall n :: n in heap.Nodes() ==> n.hasCallback)
      && AsGiven(repeats)
      && FiredSoFar(fired, keys, Keys(), time)
      && Restarted(fired, keys, Keys(), time, repeats, start, timerCounter)
    }

    /** The loop of uv__run_timers. */
    method FireAll(ghost keys: map<HeapNode, Key>, ghost repeats: map<HeapNode, nat>) returns (fired: seq<HeapNode>)
      requires Valid() && time < MAX_TIME && keys == Keys() && repeats == Repeats()
      requires forall n :: n in heap.Nodes() ==> n.hasCallback
      modifies this`timerCounter, heap, heap.Nodes()
      ensures Valid() && (heap.min == null || heap.min.timeout > time)
      ensures Progress(fired, keys, repeats, old(timerCounter)) && keys.Keys <= handles
    {
      AllHandles();
      assert keys.Keys <= handles;
      hide Valid, Progress, Keys, Repeats, StillDue;
      fired := [];
      NothingYet();
      while heap.min != null && heap.min.timeout <= time
        invariant Valid() && heap.Nodes() <= old(heap.Nodes())
        invariant Progress(fired, keys, repeats, old(timerCounter))
        decreases StillDue(fired, keys, time)
      {
        MinIsEarliest();
        var timer := FireNext(fired, keys, repeats, old(timerCounter));
        OneLessDue(fired, keys, time, timer);
        fired := fired + [timer];
      }
    }

    lemma NothingYet()
      requires forall n :: n in heap.Nodes() ==> n.hasCallback
      ensures Progress([], Keys(), Repeats(), timerCounter)
    {
      NoneFired(Keys(), time, Repeats(), timerCounter);
      hide FiredSoFar, Restarted;
    }

    method FireNext(ghost fired: seq<HeapNode>, ghost keys: map<HeapNode, Key>, ghost repeats: map<HeapNode, nat>,
                    ghost start: nat)
      returns (timer: HeapNode)
      requires Valid() && time < MAX_TIME && Progress(fired, keys, repeats, start)
      requires heap.min != null && heap.min.timeout <= time
      modifies this`timerCounter, heap.min, heap, heap.Nodes()`left, heap.Nodes()`right, heap.Nodes()`parent
      ensures Valid() && Progress(fired + [timer], keys, repeats, start) && heap.Nodes() <= old(heap.Nodes())
      ensures timer == old(heap.min) && timer in old(heap.Nodes())
      ensures timer in keys && keys[timer].timeout <= time && timer !in fired
    {
      hide Valid, FiredSoFar, OneFired, Restarted, AsGiven;
      MinIsEarliest();
      ghost var before, counter := Keys(), timerCounter;
      label Firing:
      timer := Fire();
      StillGiven@Firing(repeats);
      FiredOneMore(fired, keys, before, Keys(), timer, time, timer.repeat, counter, timerCounter);
      SameTimers(fired, keys, before, time, repeats, start, counter);
      assert timer.repeat == repeats[timer] by {
        GivenAt(repeats, timer);
      }
      RestartedOneMore(fired, keys, before, Keys(), timer, time, repeats, start, counter, timerCounter);
    }

    twostate lemma StillGiven(repeats: map<HeapNode, nat>)
      requires old(AsGiven(repeats))
      requires forall n :: n in repeats ==> n.repeat == old(n.repeat)
      ensures AsGiven(repeats)
    {
    }

    lemma GivenAt(repeats: map<HeapNode, nat>, timer: HeapNode)
      requires AsGiven(repeats) && timer in repeats
      ensures timer.repeat == repeats[timer]
    {
    }

    ghost predicate AsGiven(repeats: map<HeapNode, nat>)
      reads repeats.Keys
    {
      forall n :: n in repeats ==> n.repeat == repeats[n]
    }

    /** What the maps say about the timers themselves, when nothing is due any more. */
    lemma AllFired(fired: seq<HeapNode>, keys: map<HeapNode, Key>, repeats: map<HeapNode, nat>, start: nat)
      requires Valid() && keys.Keys <= handles
      requires AsGiven(repeats)
      requires Restarted(fired, keys, Keys(), time, repeats, start, timerCounter)
      ensures forall n :: n in keys && n !in fired ==>
        n in heap.Nodes() && n.active && Key(n.timeout, n.startId) == keys[n]
      ensures forall n :: n in fired && n.repeat == 0 ==> n !in heap.Nodes() && !n.active
      ensures forall n :: n in fired && n.repeat > 0 ==>
        && n in heap.Nodes() && n.active && n.timeout == DueTime(time, n.repeat) && start <= n.startId < timerCounter
      ensures forall i, j :: 0 <= i < j < |fired| && fired[i].repeat > 0 && fired[j].repeat > 0 ==>
        fired[i].startId < fired[j].startId
    {
      hide Heap.Valid, StartedBefore;
      assert forall n :: n in keys ==> n in handles && (n.active <==> n in heap.Nodes()) && n.repeat <= MAX_TIME;
      hide ActiveIn;
      forall i, j | 0 <= i < j < |fired| && fired[i].repeat > 0 && fired[j].repeat > 0
        ensures fired[i].startId < fired[j].startId
      {
        assert fired[i] in fired && fired[j] in fired;
      }
    }
  }

  datatype Key = Key(timeout: nat, startId: nat)

  predicate KeyLess(a: Key, b: Key) {
    a.timeout < b.timeout || (a.timeout == b.timeout && a.startId < b.startId)
  }

  ghost predicate FiredInOrder(fired: seq<HeapNode>, keys: map<HeapNode, Key>) {
    && (forall n :: n in fired ==> n in keys)
    && forall i, j :: 0 <= i < j < |fired| ==> KeyLess(keys[fired[i]], keys[fired[j]])
  }

  ghost function StillDue(fired: seq<HeapNode>, keys: map<HeapNode, Key>, time: nat): set<HeapNode> {
    set n | n in keys && keys[n].timeout <= time && n !in fired
  }

  lemma OneLessDue(fired: seq<HeapNode>, keys: map<HeapNode, Key>, time: nat, timer: HeapNode)
    requires timer in keys && keys[timer].timeout <= time && timer !in fired
    ensures StillDue(fired + [timer], keys, time) < StillDue(fired, keys, time)
  {
    assert timer in StillDue(fired, keys, time) && timer !in StillDue(fired + [timer], keys, time);
  }

  /** The first timer has fired; if it runs again it is not due. */
  ghost predicate OneFired(before: map<HeapNode, Key>, after: map<HeapNode, Key>, timer: HeapNode, time: nat,
                           repeat: nat, counter: nat, next: nat)
  {
    && timer in before && before[timer].timeout <= time
    && (forall n :: n in before && n != timer ==> n in after && after[n] == before[n] && KeyLess(before[timer], before[n]))
    && (forall n :: n in after && n != timer ==> n in before)
    && (timer in after <==> repeat > 0)
    && (timer in after ==> after[timer] == Key(Later(time, repeat), counter) && next == counter + 1)
    && (timer !in after ==> next == counter)
  }

  /** The due time of a timer that starts over. */
  ghost function Later(now: nat, repeat: nat): nat {
    if now + repeat <= MAX_TIME then now + repeat else MAX_TIME
  }

  lemma FirstFired(before: map<HeapNode, Key>, after: map<HeapNode, Key>, timer: HeapNode, time: nat,
                   repeat: nat, counter: nat, next: nat)
    requires timer in before && before[timer].timeout <= time
    requires forall n :: n in before && n != timer ==>
      n in after && after[n] == before[n] && KeyLess(before[timer], before[n])
    requires forall n :: n in after && n != timer ==> n in before
    requires timer in after <==> repeat > 0
    requires timer in after ==> after[timer] == Key(Later(time, repeat), counter) && next == counter + 1
    requires timer !in after ==> next == counter
    ensures OneFired(before, after, timer, time, repeat, counter, next)
  {
  }

  lemma NoneFired(keys: map<HeapNode, Key>, time: nat, repeats: map<HeapNode, nat>, counter: nat)
    requires keys.Keys == repeats.Keys
    ensures FiredSoFar([], keys, keys, time) && Restarted([], keys, keys, time, repeats, counter, counter)
  {
  }

  /** What is still due is what was due and has not fired, untouched, and it comes after all
      that has fired. */
  ghost predicate FiredSoFar(fired: seq<HeapNode>, keys: map<HeapNode, Key>, now: map<HeapNode, Key>, time: nat) {
    && (forall n :: n in fired ==> n in keys && keys[n].timeout <= time)
    && (forall n :: n in keys && keys[n].timeout <= time && n !in fired ==> n in now && now[n] == keys[n])
    && (forall n :: n in now && now[n].timeout <= time ==> n in keys && n !in fired && now[n] == keys[n])
    && FiredInOrder(fired, keys)
    && (forall f, n :: f in fired && n in keys && keys[n].timeout <= time && n !in fired ==> KeyLess(keys[f], keys[n]))
  }

  /** What has not fired keeps its key; of what has, the timers that repeat run again, under
      new start numbers in the order of firing. */
  ghost predicate Restarted(fired: seq<HeapNode>, keys: map<HeapNode, Key>, now: map<HeapNode, Key>, time: nat,
                            repeats: map<HeapNode, nat>, start: nat, counter: nat)
  {
    && keys.Keys == repeats.Keys
    && (forall n :: n in fired ==> n in keys)
    && (forall n :: n in keys && n !in fired ==> n in now && now[n] == keys[n])
    && (forall n :: n in fired ==> (n in now <==> repeats[n] > 0))
    && (forall n :: n in fired && n in now ==>
      now[n].timeout == Later(time, repeats[n]) && start <= now[n].startId < counter)
    && (forall i, j :: 0 <= i < j < |fired| && fired[i] in now && fired[j] in now ==>
      now[fired[i]].startId < now[fired[j]].startId)
    && start <= counter
  }

  lemma SameTimers(fired: seq<HeapNode>, keys: map<HeapNode, Key>, now: map<HeapNode, Key>, time: nat,
                   repeats: map<HeapNode, nat>, start: nat, counter: nat)
    requires Restarted(fired, keys, now, time, repeats, start, counter)
    ensures keys.Keys == repeats.Keys
  {
  }

  lemma FiredOneMore(fired: seq<HeapNode>, keys: map<HeapNode, Key>, before: map<HeapNode, Key>,
                     after: map<HeapNode, Key>, timer: HeapNode, time: nat, repeat: nat, counter: nat, next: nat)
    requires FiredSoFar(fired, keys, before, time) && OneFired(before, after, timer, time, repeat, counter, next)
    requires time < MAX_TIME
    ensures FiredSoFar(fired + [timer], keys, after, time)
    ensures timer in keys && keys[timer].timeout <= time && timer !in fired
  {
  }

  lemma RestartedOneMore(fired: seq<HeapNode>, keys: map<HeapNode, Key>, before: map<HeapNode, Key>,
                         after: map<HeapNode, Key>, timer: HeapNode, time: nat, repeats: map<HeapNode, nat>,
                         start: nat, counter: nat, next: nat)
    requires Restarted(fired, keys, before, time, repeats, start, counter)
    requires timer in keys && timer !in fired && OneFired(before, after, timer, time, repeats[timer], counter, next)
    ensures Restarted(fired + [timer], keys, after, time, repeats, start, next)
  {
    var all := fired + [timer];
    forall n | n in all
      ensures n == timer || (n in fired && n != timer && (n in after <==> n in before))
    {
    }
    forall i, j | 0 <= i < j < |all| && all[i] in after && all[j] in after
      ensures after[all[i]].startId < after[all[j]].startId
    {
      assert all[i] == fired[i] && all[i] in fired;
    }
  }

  lemma NothingLeft(fired: seq<HeapNode>, keys: map<HeapNode, Key>, now: map<HeapNode, Key>, time: nat)
    requires FiredSoFar(fired, keys, now, time)
    requires forall n :: n in now ==> now[n].timeout > time
    ensures forall n :: n in fired <==> n in keys && keys[n].timeout <= time
    ensures FiredInOrder(fired, keys)
  {
  }
}
