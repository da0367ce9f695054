/** No callback is lost: whatever was added is queued or waits until it starts, and what starts ends. */
module Conservation {
  import opened Wrappers
  import opened BottomHalf
  import opened Accounts

  predicate HasTimer(t: Task, reg: nat) {
    t.timer.Some? && t.timer.value.reg == reg
  }

  predicate TaskQueued(queue: seq<Task>, id: nat) {
    queue != [] && (queue[0].id == id || TaskQueued(queue[1..], id))
  }

  predicate TimerQueued(queue: seq<Task>, reg: nat) {
    queue != [] && (HasTimer(queue[0], reg) || TimerQueued(queue[1..], reg))
  }

  predicate TimerWaits(timers: seq<Timer>, reg: nat) {
    timers != [] && (timers[0].key.reg == reg || TimerWaits(timers[1..], reg))
  }

  predicate TaskStarted(log: seq<Event>, id: nat) {
    log != [] &&
    var e := log[|log| - 1];
    (e.Start? && e.task.id == id) || TaskStarted(log[..|log| - 1], id)
  }

  predicate TimerStarted(log: seq<Event>, reg: nat) {
    log != [] &&
    var e := log[|log| - 1];
    (e.Start? && HasTimer(e.task, reg)) || TimerStarted(log[..|log| - 1], reg)
  }

  /**
   * Every task ever queued has started or is in the queue, and every timer ever registered waits, or its
   * callback is in the queue or has started.
   */
  ghost predicate NoneLost(v: View) {
    && (forall id: nat :: id < v.nextId ==> TaskStarted(v.log, id) || TaskQueued(v.queue, id))
    && (forall reg: nat :: reg < v.nextReg ==>
          TimerStarted(v.log, reg) || TimerQueued(v.queue, reg) || TimerWaits(v.timers, reg))
  }

  /** The timer with this key is the one registered under its number: due when it was asked to be, and for this. */
  predicate AsRegistered(regs: seq<Registration>, key: Key, body: Script, tail: Script) {
    && key.reg < |regs|
    && key.expire == regs[key.reg].time + regs[key.reg].ticks
    && body == regs[key.reg].body && tail == regs[key.reg].tail
  }

  predicate TaskAsRegistered(regs: seq<Registration>, t: Task) {
    t.timer.Some? ==> AsRegistered(regs, t.timer.value, t.body, t.tail)
  }

  predicate TimersAsRegistered(regs: seq<Registration>, timers: seq<Timer>) {
    timers == [] ||
    (AsRegistered(regs, timers[0].key, timers[0].body, timers[0].tail) && TimersAsRegistered(regs, timers[1..]))
  }

  predicate QueueAsRegistered(regs: seq<Registration>, queue: seq<Task>) {
    queue == [] || (TaskAsRegistered(regs, queue[0]) && QueueAsRegistered(regs, queue[1..]))
  }

  ghost predicate LogAsRegistered(regs: seq<Registration>, log: seq<Event>) {
    forall i :: 0 <= i < |log| && log[i].Start? ==> TaskAsRegistered(regs, log[i].task)
  }

  /** What waits, is queued or has started for a timer is what was registered under its number. */
  ghost predicate Promised(v: View) {
    && |v.regs| == v.nextReg
    && TimersAsRegistered(v.regs, v.timers)
    && QueueAsRegistered(v.regs, v.queue)
    && LogAsRegistered(v.regs, v.log)
  }

  ghost predicate Kept(v: View) {
    NoneLost(v) && Promised(v)
  }

  lemma {:induction false} MoreTimers(regs: seq<Registration>, r: Registration, timers: seq<Timer>)
    requires TimersAsRegistered(regs, timers)
    ensures TimersAsRegistered(regs + [r], timers)
  {
    if timers != [] {
      MoreTimers(regs, r, timers[1..]);
    }
  }

  lemma {:induction false} MoreQueue(regs: seq<Registration>, r: Registration, queue: seq<Task>)
    requires QueueAsRegistered(regs, queue)
    ensures QueueAsRegistered(regs + [r], queue)
  {
    if queue != [] {
      MoreQueue(regs, r, queue[1..]);
    }
  }

  lemma {:induction false} EnqueuedRegistered(regs: seq<Registration>, queue: seq<Task>, t: Task)
    requires QueueAsRegistered(regs, queue) && TaskAsRegistered(regs, t)
    ensures QueueAsRegistered(regs, Enqueued(queue, t))
  {
    var r := Enqueued(queue, t);
    if queue == [] || t.prio < queue[0].prio {
      assert r[1..] == queue;
    } else {
      assert r[1..] == Enqueued(queue[1..], t);
      EnqueuedRegistered(regs, queue[1..], t);
    }
  }

  lemma {:induction false} EnrolledRegistered(regs: seq<Registration>, timers: seq<Timer>, n: Timer)
    requires TimersAsRegistered(regs, timers) && AsRegistered(regs, n.key, n.body, n.tail)
    ensures TimersAsRegistered(regs, Enrolled(timers, n))
  {
    var r := Enrolled(timers, n);
    if timers == [] || n.key.expire < timers[0].key.expire {
      assert r[1..] == timers;
    } else {
      assert r[1..] == Enrolled(timers[1..], n);
      EnrolledRegistered(regs, timers[1..], n);
    }
  }

  lemma WithTimerPromised(v: View, ticks: nat, body: Script, tail: Script)
    requires Promised(v)
    ensures Promised(WithTimer(v, ticks, body, tail))
  {
    var n, r := Timer(Key(v.now + ticks, v.nextReg), body, tail), Registration(v.now, ticks, body, tail);
    MoreTimers(v.regs, r, v.timers);
    MoreQueue(v.regs, r, v.queue);
    EnrolledRegistered(v.regs + [r], v.timers, n);
  }

  lemma {:induction false} EnqueuedHolds(queue: seq<Task>, t: Task, n: nat)
    ensures TaskQueued(Enqueued(queue, t), n) <==> t.id == n || TaskQueued(queue, n)
    ensures TimerQueued(Enqueued(queue, t), n) <==> HasTimer(t, n) || TimerQueued(queue, n)
  {
    var r := Enqueued(queue, t);
    if queue == [] || t.prio < queue[0].prio {
      assert r[1..] == queue;
    } else {
      assert r[1..] == Enqueued(queue[1..], t);
      EnqueuedHolds(queue[1..], t, n);
    }
  }

  lemma {:induction false} EnrolledHolds(timers: seq<Timer>, n: Timer, reg: nat)
    ensures TimerWaits(Enrolled(timers, n), reg) <==> n.key.reg == reg || TimerWaits(timers, reg)
  {
    var r := Enrolled(timers, n);
    if timers == [] || n.key.expire < timers[0].key.expire {
      assert r[1..] == timers;
    } else {
      assert r[1..] == Enrolled(timers[1..], n);
      EnrolledHolds(timers[1..], n, reg);
    }
  }

  lemma LogHolds(log: seq<Event>, e: Event, n: nat)
    ensures TaskStarted(log + [e], n) <==> TaskStarted(log, n) || (e.Start? && e.task.id == n)
    ensures TimerStarted(log + [e], n) <==> TimerStarted(log, n) || (e.Start? && HasTimer(e.task, n))
  {
    assert (log + [e])[..|log|] == log;
  }

  lemma AddedKeeps(v: View, prio: int, body: Script, tail: Script)
    requires Kept(v)
    ensures Kept(Added(v, prio, None, body, tail))
  {
    var t := Task(v.nextId, prio, None, body, tail);
    forall n: nat {
      EnqueuedHolds(v.queue, t, n);
    }
    EnqueuedRegistered(v.regs, v.queue, t);
  }

  lemma WithTimerKeeps(v: View, ticks: nat, body: Script, tail: Script)
    requires Kept(v)
    ensures Kept(WithTimer(v, ticks, body, tail))
  {
    WithTimerPromised(v, ticks, body, tail);
    hide Promised;
    var n := Timer(Key(v.now + ticks, v.nextReg), body, tail);
    forall reg: nat ensures TimerWaits(Enrolled(v.timers, n), reg) <==> v.nextReg == reg || TimerWaits(v.timers, reg) {
      EnrolledHolds(v.timers, n, reg);
    }
  }

  lemma {:induction false} DrainedKeeps(v: View)
    requires Kept(v)
    ensures Kept(Drained(v))
    decreases |v.timers|
  {
    if v.timers != [] && v.timers[0].key.expire <= v.now {
      forall n: nat {
        EnqueuedHolds(v.queue, Fired(v.timers[0], v.nextId), n);
      }
      EnqueuedRegistered(v.regs, v.queue, Fired(v.timers[0], v.nextId));
      DrainedKeeps(FiredFirst(v));
    }
  }

  lemma StartedKeeps(v: View)
    requires Kept(v) && v.queue != []
    ensures Kept(Started(v))
  {
    forall n: nat {
      LogHolds(v.log, Start(v.queue[0], v.now), n);
    }
  }

  lemma EndedKeeps(v: View, t: Task, prio: int)
    requires Kept(v)
    ensures Kept(Ended(v, t, prio))
  {
    forall n: nat {
      LogHolds(v.log, End(t, v.now), n);
    }
  }

  lemma {:induction false} AfterHeadKeeps(v: View)
    requires Kept(v) && v.Urgent()
    ensures Kept(AfterHead(v))
    decreases v.Work(), 0
  {
    hide Kept;
    var t := v.queue[0];
    StartedKeeps(v);
    ExecutedKeeps(Started(v), t.body);
    var w := Executed(Started(v), t.body);
    EndedKeeps(w, t, v.running);
    ExecutedKeeps(Ended(w, t, v.running), t.tail);
  }

  lemma {:induction false} AfterTasksKeeps(v: View)
    requires Kept(v)
    ensures Kept(AfterTasks(v))
    decreases v.Work(), 1
  {
    hide Kept;
    if v.Urgent() {
      AfterHeadKeeps(v);
      AfterTasksKeeps(AfterHead(v));
    }
  }

  lemma {:induction false} ActedKeeps(v: View, script: Script)
    requires Kept(v) && !script.Done?
    ensures Kept(Acted(v, script))
    decreases v.Work() + Size(script), 0
  {
    match script
    case AddTask(prio, body, tail, _, _) => AddedKeeps(v, prio, body, tail);
    case AddTimer(ticks, body, tail, _, _) => WithTimerKeeps(v, ticks, body, tail);
    case Pass(_, _) =>
    case TopHalf(_) => DrainedKeeps(v);
    case RunPending(_) => AfterTasksKeeps(v);
  }

  /** Nothing is lost by any script, with everything nested in it. */
  lemma {:induction false} ExecutedKeeps(v: View, script: Script)
    requires Kept(v)
    ensures Kept(Executed(v, script))
    decreases v.Work() + Size(script), 1
  {
    hide Kept;
    if !script.Done? {
      ActedKeeps(v, script);
      ExecutedKeeps(Acted(v, script), script.rest);
    }
  }

  lemma {:induction false} StartedAt(log: seq<Event>, id: nat) returns (i: nat)
    requires TaskStarted(log, id)
    ensures i < |log| && log[i].Start? && log[i].task.id == id
  {
    i := |log| - 1;
    if !(log[i].Start? && log[i].task.id == id) {
      i := StartedAt(log[..|log| - 1], id);
    }
  }

  lemma {:induction false} QueuedAt(queue: seq<Task>, id: nat) returns (i: nat)
    requires TaskQueued(queue, id)
    ensures i < |queue| && queue[i].id == id
  {
    i := 0;
    if queue[0].id != id {
      var j := QueuedAt(queue[1..], id);
      i := j + 1;
    }
  }

  /** The task has started and ended. */
  ghost predicate Finished(log: seq<Event>, id: nat) {
    exists i, k :: 0 <= i < k < |log| && log[i].Start? && log[i].task.id == id && Ends(log[k], log[i].task)
  }

  /**
   * When the dispatcher is left at the idle level, every task ever queued has run to its end, but for those
   * in the queue that are no more urgent than idling.
   */
  lemma EveryTaskRuns(v: View, id: nat)
    requires NoneLost(v) && QueueSorted(v.queue) && WellNested(v.log) && Stack(v.log) == []
    requires v.running == PRIO_IDLE && !v.Urgent() && id < v.nextId
    ensures Finished(v.log, id) || exists i :: 0 <= i < |v.queue| && v.queue[i].id == id && v.queue[i].prio >= PRIO_IDLE
  {
    if TaskStarted(v.log, id) {
      var i := StartedAt(v.log, id);
      if forall k :: i < k < |v.log| ==> !Ends(v.log[k], v.log[i].task) {
        StillRunning(v.log, i);
        assert false;
      }
    } else {
      var i := QueuedAt(v.queue, id);
      assert i > 0 ==> Before(v.queue[0], v.queue[i]);
    }
  }

  ghost predicate Waited(v: View, i: nat)
    requires i < |v.log| && v.log[i].task.timer.Some?
  {
    var t := v.log[i].task;
    var reg := t.timer.value.reg;
    && reg < |v.regs| && v.log[i].time >= v.regs[reg].time + v.regs[reg].ticks
    && t.body == v.regs[reg].body && t.tail == v.regs[reg].tail
  }

  /** The callback of a timer starts no earlier than its registration plus its ticks, with what was registered. */
  lemma CallbackWaits(v: View, i: nat)
    requires Promised(v) && TimerOrder(v.log, v.queue, v.timers, v.now, v.nextReg)
    requires i < |v.log| && v.log[i].Start? && v.log[i].task.timer.Some?
    ensures Waited(v, i)
  {
    assert OnTime(v.log[i]);
  }

  lemma StartKept(v: View)
    requires v.queue == [] && v.timers == [] && v.log == [] && v.regs == [] && v.nextId == 0 && v.nextReg == 0
    ensures Kept(v)
  {
  }

  /**
   * Any history of the back end, and then task_run_pending: nothing is lost, everything the history and the
   * callbacks ask for is done, and every callback started has run its whole body.
   */
  method Life(period: nat, now: nat, history: Script) returns (k: Kernel)
    ensures fresh(k) && k.Valid() && Kept(k.Value()) && k.running == PRIO_IDLE
    ensures Accounted(View([], [], PRIO_IDLE, now, now + period, period, 0, 0, [], []), k.Value(), Asked(history))
    ensures AllWhole(k.log, 0)
    ensures forall i: nat :: i < |k.log| && k.log[i].Start? && k.log[i].task.timer.Some? ==> Waited(k.Value(), i)
    ensures forall id: nat :: id < k.nextId ==>
              || Finished(k.log, id)
              || exists i :: 0 <= i < |k.queue| && k.queue[i].id == id && k.queue[i].prio >= PRIO_IDLE
  {
    hide Finished, Executed, AfterTasks, TimerOrder, Armed, Promised, Accounted, AllWhole, Plus;
    k := new Kernel(period, now);
    ghost var start := k.Value();
    StartKept(start);
    k.Exec(history);
    ExecutedKeeps(start, history);
    ExecutedFaithful(start, history);
    ghost var mid := k.Value();
    AfterTasksKeeps(mid);
    AfterTasksFaithful(mid);
    k.RunTasks();
    FaithfulCompose(start, mid, k.Value(), Asked(history), Nothing);
    PlusNothing(Asked(history));
    forall i: nat | i < |k.log| && k.log[i].Start? && k.log[i].task.timer.Some? ensures Waited(k.Value(), i) {
      CallbackWaits(k.Value(), i);
    }
    forall id: nat | id < k.nextId
      ensures || Finished(k.log, id)
              || exists i :: 0 <= i < |k.queue| && k.queue[i].id == id && k.queue[i].prio >= PRIO_IDLE
    {
      EveryTaskRuns(k.Value(), id);
    }
  }
}
