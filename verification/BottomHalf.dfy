/**
 * The bottom-half task queue and the timer queue that feeds it. A callback is a finite script of the
 * calls it makes and of the interrupts that arrive while it runs.
 */
module BottomHalf {
  import opened Sequences
  import opened Wrappers

  const PRIO_IDLE: int := 0x7FFF_FFFF
  const TIMER_TASK_PRIO: int := 2

  /** What a callback does; `node` tells whether kmalloc gives the node that add_task and add_timer_ticks ask for. */
  datatype Script =
    | Done
    | AddTask(prio: int, body: Script, tail: Script, node: bool, rest: Script)    // add_task
    | AddTimer(ticks: nat, body: Script, tail: Script, node: bool, rest: Script)  // add_timer_ticks
    | Pass(ticks: nat, rest: Script)                                              // time goes by
    | TopHalf(rest: Script)                                                       // timer_top_half
    | RunPending(rest: Script)                                                    // task_run_pending

  /** Expiry and registration number of a timer. */
  datatype Key = Key(expire: nat, reg: nat)

  /**
   * A queued callback. `tail` is what interrupts do between the priority being restored after the
   * callback and the next look at the queue. `id` numbers the calls to add_task.
   */
  datatype Task = Task(id: nat, prio: int, timer: Option<Key>, body: Script, tail: Script)

  datatype Timer = Timer(key: Key, body: Script, tail: Script)

  /** A callback begins or returns, with the clock at that moment. */
  datatype Event = Start(task: Task, time: nat) | End(task: Task, time: nat)

  predicate Ends(e: Event, t: Task) {
    e.End? && e.task == t
  }

  /** A successful call of add_timer_ticks: the clock, and what was asked for. The n-th one registers timer n. */
  datatype Registration = Registration(time: nat, ticks: nat, body: Script, tail: Script)

  // ---- order ----

  predicate KeyLess(a: Key, b: Key) {
    a.expire < b.expire || (a.expire == b.expire && a.reg < b.reg)
  }

  /** Higher priority first, first come first served among equals. */
  predicate Before(a: Task, b: Task) {
    a.prio < b.prio || (a.prio == b.prio && a.id < b.id)
  }

  ghost predicate QueueSorted(queue: seq<Task>) {
    forall i, j :: 0 <= i < j < |queue| ==> Before(queue[i], queue[j])
  }

  // ---- nesting ----

  /** The callbacks started and not yet ended, innermost last. */
  function Stack(log: seq<Event>): seq<Task> {
    if log == [] then []
    else
      var below := Stack(log[..|log| - 1]);
      match log[|log| - 1]
      case Start(t, _) => below + [t]
      case End(_, _) => if below == [] then [] else below[..|below| - 1]
  }

  function Level(stack: seq<Task>): int {
    if stack == [] then PRIO_IDLE else stack[|stack| - 1].prio
  }

  /** Every start is strictly more urgent than what it interrupts, and ends match starts. */
  ghost predicate WellNested(log: seq<Event>) {
    log == [] ||
    var before := log[..|log| - 1];
    && WellNested(before)
    && match log[|log| - 1]
       case Start(t, _) => t.prio < Level(Stack(before))
       case End(t, _) => Stack(before) != [] && Stack(before)[|Stack(before)| - 1] == t
  }

  // ---- invariants ----

  /** t has not started, and was added after every equally urgent task that has. */
  ghost predicate Later(t: Task, log: seq<Event>) {
    log == [] ||
    var e := log[|log| - 1];
    && Later(t, log[..|log| - 1])
    && (e.Start? ==> e.task.id != t.id && (e.task.prio == t.prio ==> e.task.id < t.id))
  }

  /** No task starts twice, and equally urgent tasks start in the order they were added. */
  ghost predicate StartsOrdered(log: seq<Event>, nextId: nat) {
    log == [] ||
    var e := log[|log| - 1];
    && StartsOrdered(log[..|log| - 1], nextId)
    && (e.Start? ==> e.task.id < nextId && Later(e.task, log[..|log| - 1]))
  }

  ghost predicate TaskOrder(log: seq<Event>, queue: seq<Task>, nextId: nat) {
    && QueueSorted(queue)
    && (forall i, j :: 0 <= i < j < |queue| ==> queue[i].id != queue[j].id)
    && (forall i :: 0 <= i < |queue| ==> queue[i].id < nextId && Later(queue[i], log))
    && StartsOrdered(log, nextId)
  }

  /** Keys of the timer callbacks among started, queued and waiting ones, in order. */
  function StartedKeys(log: seq<Event>): seq<Key> {
    if log == [] then []
    else
      var e := log[|log| - 1];
      StartedKeys(log[..|log| - 1]) + if e.Start? && e.task.timer.Some? then [e.task.timer.value] else []
  }

  function QueuedKeys(queue: seq<Task>): seq<Key> {
    if queue == [] then []
    else (if queue[0].timer.Some? then [queue[0].timer.value] else []) + QueuedKeys(queue[1..])
  }

  function WaitingKeys(timers: seq<Timer>): seq<Key> {
    seq(|timers|, i requires 0 <= i < |timers| => timers[i].key)
  }

  /** All timers of the run, in the order in which their callbacks start. */
  function Flow(log: seq<Event>, queue: seq<Task>, timers: seq<Timer>): seq<Key> {
    StartedKeys(log) + QueuedKeys(queue) + WaitingKeys(timers)
  }

  /** The first m keys belong to expired timers; keys increase and registrations lie below nextReg. */
  ghost predicate FlowOrdered(flow: seq<Key>, m: nat, now: nat, nextReg: nat) {
    && (forall i, j :: 0 <= i < j < |flow| ==> KeyLess(flow[i], flow[j]))
    && (forall i :: 0 <= i < |flow| ==> flow[i].reg < nextReg)
    && (forall i :: 0 <= i < m && i < |flow| ==> flow[i].expire <= now)
  }

  predicate TimerPrio(t: Task) {
    t.timer.Some? ==> t.prio == TIMER_TASK_PRIO
  }

  /** A timer callback starts no earlier than its expiry. */
  predicate OnTime(e: Event) {
    e.Start? && e.task.timer.Some? ==> e.task.timer.value.expire <= e.time
  }

  /** Timer callbacks share one priority, have expired, and start in order of expiry and registration. */
  ghost predicate TimerOrder(log: seq<Event>, queue: seq<Task>, timers: seq<Timer>, now: nat, nextReg: nat) {
    && FlowOrdered(Flow(log, queue, timers), |StartedKeys(log)| + |QueuedKeys(queue)|, now, nextReg)
    && (forall i :: 0 <= i < |queue| ==> TimerPrio(queue[i]))
    && (forall i :: 0 <= i < |log| ==> TimerPrio(log[i].task) && OnTime(log[i]))
  }

  ghost predicate Armed(timers: seq<Timer>, deadline: nat) {
    timers != [] ==> deadline <= timers[0].key.expire
  }

  // ---- work left, for termination ----

  function Size(s: Script): nat {
    match s
    case Done => 0
    case AddTask(_, body, tail, _, rest) => 2 + Size(body) + Size(tail) + Size(rest)
    case AddTimer(_, body, tail, _, rest) => 3 + Size(body) + Size(tail) + Size(rest)
    case Pass(_, rest) => 1 + Size(rest)
    case TopHalf(rest) => 1 + Size(rest)
    case RunPending(rest) => 1 + Size(rest)
  }

  function TaskWork(queue: seq<Task>): nat {
    if queue == [] then 0 else 1 + Size(queue[0].body) + Size(queue[0].tail) + TaskWork(queue[1..])
  }

  function TimerWork(timers: seq<Timer>): nat {
    if timers == [] then 0 else 2 + Size(timers[0].body) + Size(timers[0].tail) + TimerWork(timers[1..])
  }

  /** The queue with t behind everything at least as urgent. */
  function Enqueued(queue: seq<Task>, t: Task): seq<Task> {
    if queue == [] || t.prio < queue[0].prio then [t] + queue else [queue[0]] + Enqueued(queue[1..], t)
  }

  lemma {:induction false} SlotIsEnqueued(queue: seq<Task>, k: nat, t: Task)
    requires k <= |queue|
    requires forall i :: 0 <= i < k ==> queue[i].prio <= t.prio
    requires k < |queue| ==> t.prio < queue[k].prio
    ensures InsertAt(queue, k, t) == Enqueued(queue, t)
  {
    if k > 0 {
      SlotIsEnqueued(queue[1..], k - 1, t);
    }
  }

  /** The timers with n behind everything that expires no later. */
  function Enrolled(timers: seq<Timer>, n: Timer): seq<Timer> {
    if timers == [] || n.key.expire < timers[0].key.expire then [n] + timers else [timers[0]] + Enrolled(timers[1..], n)
  }

  lemma {:induction false} SlotIsEnrolled(timers: seq<Timer>, k: nat, n: Timer)
    requires k <= |timers|
    requires forall i :: 0 <= i < k ==> timers[i].key.expire <= n.key.expire
    requires k < |timers| ==> n.key.expire < timers[k].key.expire
    ensures InsertAt(timers, k, n) == Enrolled(timers, n)
  {
    if k > 0 {
      SlotIsEnrolled(timers[1..], k - 1, n);
    }
  }

  /** The callback task of a fired timer. */
  function Fired(n: Timer, id: nat): Task {
    Task(id, TIMER_TASK_PRIO, Some(n.key), n.body, n.tail)
  }

  lemma {:induction false} TaskWorkInsert(queue: seq<Task>, k: nat, t: Task)
    requires k <= |queue|
    ensures TaskWork(InsertAt(queue, k, t)) == TaskWork(queue) + 1 + Size(t.body) + Size(t.tail)
  {
    var r := InsertAt(queue, k, t);
    if k == 0 {
      assert r[1..] == queue;
    } else {
      assert r[1..] == InsertAt(queue[1..], k - 1, t);
      TaskWorkInsert(queue[1..], k - 1, t);
    }
  }

  // ---- what the operations compute ----

  /** Queues, running priority, clock, programmed deadline, counters, log and registrations. */
  datatype View = View(queue: seq<Task>, timers: seq<Timer>, running: int, now: nat, deadline: nat, period: nat,
                       nextId: nat, nextReg: nat, log: seq<Event>, regs: seq<Registration>)
  {
    function Work(): nat {
      TaskWork(queue) + TimerWork(timers)
    }

    predicate Urgent() {
      queue != [] && queue[0].prio < running
    }
  }

  /** add_task. */
  function Added(v: View, prio: int, timer: Option<Key>, body: Script, tail: Script): View {
    v.(queue := Enqueued(v.queue, Task(v.nextId, prio, timer, body, tail)), nextId := v.nextId + 1)
  }

  lemma {:induction false} EnqueuedWork(queue: seq<Task>, t: Task)
    ensures TaskWork(Enqueued(queue, t)) == TaskWork(queue) + 1 + Size(t.body) + Size(t.tail)
  {
    var r := Enqueued(queue, t);
    if queue == [] || t.prio < queue[0].prio {
      assert r[1..] == queue;
    } else {
      assert r[1..] == Enqueued(queue[1..], t);
      EnqueuedWork(queue[1..], t);
    }
  }

  /** add_timer_ticks: a timer that becomes the first one sets the deadline. */
  function WithTimer(v: View, ticks: nat, body: Script, tail: Script): View {
    var n := Timer(Key(v.now + ticks, v.nextReg), body, tail);
    v.(timers := Enrolled(v.timers, n), nextReg := v.nextReg + 1,
       regs := v.regs + [Registration(v.now, ticks, body, tail)],
       deadline := if v.timers == [] || n.key.expire < v.timers[0].key.expire then n.key.expire else v.deadline)
  }

  lemma {:induction false} EnrolledWork(timers: seq<Timer>, n: Timer)
    ensures TimerWork(Enrolled(timers, n)) == TimerWork(timers) + 2 + Size(n.body) + Size(n.tail)
  {
    var r := Enrolled(timers, n);
    if timers == [] || n.key.expire < timers[0].key.expire {
      assert r[1..] == timers;
    } else {
      assert r[1..] == Enrolled(timers[1..], n);
      EnrolledWork(timers[1..], n);
    }
  }

  /** The first timer's callback handed to the task queue. */
  function FiredFirst(v: View): View
    requires v.timers != []
  {
    v.(queue := Enqueued(v.queue, Fired(v.timers[0], v.nextId)), nextId := v.nextId + 1, timers := v.timers[1..])
  }

  /** The loop of timer_top_half: as long as the first timer has expired, its callback is queued. */
  function Drained(v: View): (w: View)
    ensures w.Work() <= v.Work()
    decreases |v.timers|
  {
    if v.timers != [] && v.timers[0].key.expire <= v.now then
      EnqueuedWork(v.queue, Fired(v.timers[0], v.nextId));
      Drained(FiredFirst(v))
    else v
  }

  /** timer_top_half. */
  function AfterTopHalf(v: View): (w: View)
    ensures w.Work() <= v.Work()
  {
    var w, next := Drained(v), v.now + v.period;
    w.(deadline := if w.timers != [] && w.timers[0].key.expire < next then w.timers[0].key.expire else next)
  }

  function Started(v: View): (w: View)
    requires v.queue != []
    ensures w.Work() + 1 + Size(v.queue[0].body) + Size(v.queue[0].tail) == v.Work()
  {
    v.(queue := v.queue[1..], running := v.queue[0].prio, log := v.log + [Start(v.queue[0], v.now)])
  }

  function Ended(v: View, t: Task, prio: int): View {
    v.(running := prio, log := v.log + [End(t, v.now)])
  }

  /** One turn of task_run_pending: the head of the queue starts, runs its whole script and ends. */
  function AfterHead(v: View): (w: View)
    requires v.Urgent()
    ensures w.Work() < v.Work()
    decreases v.Work(), 0
  {
    var t := v.queue[0];
    var w := Executed(Started(v), t.body);
    Executed(Ended(w, t, v.running), t.tail)
  }

  /** task_run_pending. */
  function AfterTasks(v: View): (w: View)
    ensures w.Work() <= v.Work() && !w.Urgent()
    decreases v.Work(), 1
  {
    if v.Urgent() then AfterTasks(AfterHead(v)) else v
  }

  /** The first action of a script. */
  function Acted(v: View, script: Script): (w: View)
    requires !script.Done?
    ensures w.Work() + Size(script.rest) < v.Work() + Size(script)
    decreases v.Work() + Size(script), 0
  {
    match script
    case AddTask(prio, body, tail, node, _) =>
      EnqueuedWork(v.queue, Task(v.nextId, prio, None, body, tail));
      if node then Added(v, prio, None, body, tail) else v
    case AddTimer(ticks, body, tail, node, _) =>
      EnrolledWork(v.timers, Timer(Key(v.now + ticks, v.nextReg), body, tail));
      if node then WithTimer(v, ticks, body, tail) else v
    case Pass(ticks, _) => v.(now := v.now + ticks)
    case TopHalf(_) => AfterTopHalf(v)
    case RunPending(_) => AfterTasks(v)
  }

  /** A callback's script, action by action. */
  function Executed(v: View, script: Script): (w: View)
    ensures w.Work() <= v.Work() + Size(script)
    decreases v.Work() + Size(script), 1
  {
    if script.Done? then v else Executed(Acted(v, script), script.rest)
  }

  // ---- the steps keep the orders ----

  /** A task with a fresh number is later than everything started. */
  lemma {:induction false} FreshIsLater(t: Task, log: seq<Event>, nextId: nat)
    requires StartsOrdered(log, nextId) && nextId <= t.id
    ensures Later(t, log) && StartsOrdered(log, nextId + 1)
  {
    if log != [] {
      FreshIsLater(t, log[..|log| - 1], nextId);
    }
  }

  /** add_task: a new task goes behind everything at least as urgent. */
  lemma AddTaskOrder(log: seq<Event>, queue: seq<Task>, nextId: nat, k: nat, t: Task)
    requires TaskOrder(log, queue, nextId) && t.id == nextId && k <= |queue|
    requires forall i :: 0 <= i < k ==> queue[i].prio <= t.prio
    requires k < |queue| ==> t.prio < queue[k].prio
    ensures TaskOrder(log, InsertAt(queue, k, t), nextId + 1)
  {
    FreshIsLater(t, log, nextId);
    forall i | k <= i < |queue| ensures Before(t, queue[i]) {
      assert i > k ==> Before(queue[k], queue[i]);
    }
  }

  /** task_run_pending taking the head of the queue. */
  lemma StartOrder(log: seq<Event>, queue: seq<Task>, nextId: nat, now: nat)
    requires TaskOrder(log, queue, nextId) && queue != []
    ensures TaskOrder(log + [Start(queue[0], now)], queue[1..], nextId)
  {
    var log' := log + [Start(queue[0], now)];
    assert log'[..|log'| - 1] == log;
    assert forall i :: 1 <= i < |queue| ==> Before(queue[0], queue[i]);
    forall i | 1 <= i < |queue| ensures Later(queue[i], log') {
    }
  }

  lemma EndOrder(log: seq<Event>, queue: seq<Task>, nextId: nat, t: Task, time: nat)
    requires TaskOrder(log, queue, nextId)
    ensures TaskOrder(log + [End(t, time)], queue, nextId)
  {
    var log' := log + [End(t, time)];
    assert log'[..|log'| - 1] == log;
    forall i | 0 <= i < |queue| ensures Later(queue[i], log') {
    }
  }

  /** A task without a timer does not show in the flow. */
  lemma {:induction false} QueuePlain(queue: seq<Task>, k: nat, t: Task)
    requires k <= |queue| && t.timer.None?
    ensures QueuedKeys(InsertAt(queue, k, t)) == QueuedKeys(queue)
  {
    var r := InsertAt(queue, k, t);
    if k == 0 {
      assert r[1..] == queue;
    } else {
      assert r[1..] == InsertAt(queue[1..], k - 1, t);
      QueuePlain(queue[1..], k - 1, t);
    }
  }

  /** A timer callback put in behind every other one comes last among the queued keys. */
  lemma {:induction false} QueueTimer(queue: seq<Task>, k: nat, t: Task)
    requires k <= |queue| && t.timer.Some?
    requires forall i :: k <= i < |queue| ==> queue[i].timer.None?
    ensures QueuedKeys(InsertAt(queue, k, t)) == QueuedKeys(queue) + [t.timer.value]
  {
    var r := InsertAt(queue, k, t);
    if k == 0 {
      assert r[1..] == queue;
      NoQueuedKeys(queue);
    } else {
      assert r[1..] == InsertAt(queue[1..], k - 1, t);
      QueueTimer(queue[1..], k - 1, t);
    }
  }

  lemma {:induction false} NoQueuedKeys(queue: seq<Task>)
    requires forall i :: 0 <= i < |queue| ==> queue[i].timer.None?
    ensures QueuedKeys(queue) == []
  {
    if queue != [] {
      NoQueuedKeys(queue[1..]);
    }
  }

  /** add_task leaves the flow alone. */
  lemma AddPlainTimerOrder(log: seq<Event>, queue: seq<Task>, timers: seq<Timer>, now: nat, nextReg: nat, k: nat,
                           t: Task)
    requires TimerOrder(log, queue, timers, now, nextReg) && t.timer.None? && k <= |queue|
    ensures TimerOrder(log, InsertAt(queue, k, t), timers, now, nextReg)
  {
    QueuePlain(queue, k, t);
  }

  /** Starting the head of the queue moves its key from the queued to the started part of the flow. */
  lemma StartTimerOrder(log: seq<Event>, queue: seq<Task>, timers: seq<Timer>, now: nat, nextReg: nat)
    requires TimerOrder(log, queue, timers, now, nextReg) && queue != []
    ensures TimerOrder(log + [Start(queue[0], now)], queue[1..], timers, now, nextReg)
  {
    StartFlow(log, queue, now);
    assert Flow(log + [Start(queue[0], now)], queue[1..], timers) == Flow(log, queue, timers);
    HeadExpired(log, queue, timers, now, nextReg);
  }

  /** A timer callback at the head of the queue has expired. */
  lemma HeadExpired(log: seq<Event>, queue: seq<Task>, timers: seq<Timer>, now: nat, nextReg: nat)
    requires TimerOrder(log, queue, timers, now, nextReg) && queue != []
    ensures queue[0].timer.Some? ==> queue[0].timer.value.expire <= now
  {
    if queue[0].timer.Some? {
      var x := |StartedKeys(log)|;
      assert QueuedKeys(queue)[0] == queue[0].timer.value;
      assert Flow(log, queue, timers)[x] == queue[0].timer.value;
    }
  }

  lemma StartFlow(log: seq<Event>, queue: seq<Task>, now: nat)
    requires queue != []
    ensures StartedKeys(log + [Start(queue[0], now)]) + QueuedKeys(queue[1..]) == StartedKeys(log) + QueuedKeys(queue)
  {
    var log' := log + [Start(queue[0], now)];
    assert log'[..|log'| - 1] == log;
  }

  lemma EndTimerOrder(log: seq<Event>, queue: seq<Task>, timers: seq<Timer>, now: nat, nextReg: nat, t: Task, time: nat)
    requires TimerOrder(log, queue, timers, now, nextReg) && TimerPrio(t)
    ensures TimerOrder(log + [End(t, time)], queue, timers, now, nextReg)
  {
    EndFlow(log, t, time);
  }

  lemma EndFlow(log: seq<Event>, t: Task, time: nat)
    ensures StartedKeys(log + [End(t, time)]) == StartedKeys(log)
  {
    var log' := log + [End(t, time)];
    assert log'[..|log'| - 1] == log;
  }

  /** Firing the earliest timer moves its key from the waiting to the queued part of the flow. */
  lemma FireOrder(log: seq<Event>, queue: seq<Task>, timers: seq<Timer>, now: nat, nextReg: nat, k: nat, t: Task)
    requires TimerOrder(log, queue, timers, now, nextReg) && timers != [] && timers[0].key.expire <= now
    requires t.timer == Some(timers[0].key) && t.prio == TIMER_TASK_PRIO
    requires k <= |queue| && (forall i :: k <= i < |queue| ==> t.prio < queue[i].prio)
    ensures TimerOrder(log, InsertAt(queue, k, t), timers[1..], now, nextReg)
  {
    assert forall i :: k <= i < |queue| ==> queue[i].timer.None?;
    QueueTimer(queue, k, t);
    FireFlow(log, queue, InsertAt(queue, k, t), timers);
  }

  lemma FireFlow(log: seq<Event>, queue: seq<Task>, queue': seq<Task>, timers: seq<Timer>)
    requires timers != [] && QueuedKeys(queue') == QueuedKeys(queue) + [timers[0].key]
    ensures Flow(log, queue', timers[1..]) == Flow(log, queue, timers)
    ensures Flow(log, queue, timers)[|StartedKeys(log)| + |QueuedKeys(queue)|] == timers[0].key
  {
    assert WaitingKeys(timers) == [timers[0].key] + WaitingKeys(timers[1..]);
  }

  /** add_timer_ticks: a new timer expires no earlier than anything already handed to the task queue. */
  lemma AddTimerOrder(log: seq<Event>, queue: seq<Task>, timers: seq<Timer>, now: nat, nextReg: nat, k: nat, n: Timer)
    requires TimerOrder(log, queue, timers, now, nextReg) && k <= |timers|
    requires n.key.reg == nextReg && now <= n.key.expire
    requires forall i :: 0 <= i < k ==> timers[i].key.expire <= n.key.expire
    requires k < |timers| ==> n.key.expire < timers[k].key.expire
    ensures TimerOrder(log, queue, InsertAt(timers, k, n), now, nextReg + 1)
  {
    hide StartedKeys, QueuedKeys;
    var m, flow := |StartedKeys(log)| + |QueuedKeys(queue)|, Flow(log, queue, timers);
    forall i | 0 <= i < |timers| ensures flow[m + i] == timers[i].key {
    }
    InsertFlow(log, queue, timers, k, n);
    InsertOrdered(flow, m + k, n.key, m, now, nextReg);
  }

  lemma InsertFlow(log: seq<Event>, queue: seq<Task>, timers: seq<Timer>, k: nat, n: Timer)
    requires k <= |timers|
    ensures var m := |StartedKeys(log)| + |QueuedKeys(queue)|;
            Flow(log, queue, InsertAt(timers, k, n)) == InsertAt(Flow(log, queue, timers), m + k, n.key)
  {
    assert WaitingKeys(InsertAt(timers, k, n)) == InsertAt(WaitingKeys(timers), k, n.key);
  }

  lemma InsertOrdered(flow: seq<Key>, k: nat, x: Key, m: nat, now: nat, nextReg: nat)
    requires FlowOrdered(flow, m, now, nextReg) && m <= k <= |flow| && x.reg == nextReg && now <= x.expire
    requires forall i :: m <= i < k ==> flow[i].expire <= x.expire
    requires k < |flow| ==> x.expire < flow[k].expire
    ensures FlowOrdered(InsertAt(flow, k, x), m, now, nextReg + 1)
  {
    assert forall i :: 0 <= i < k ==> KeyLess(flow[i], x);
    assert forall i :: k <= i < |flow| ==> KeyLess(x, flow[i]);
  }

  lemma WaitingSorted(log: seq<Event>, queue: seq<Task>, timers: seq<Timer>, now: nat, nextReg: nat)
    requires TimerOrder(log, queue, timers, now, nextReg)
    ensures forall i, j :: 0 <= i < j < |timers| ==> KeyLess(timers[i].key, timers[j].key)
  {
    var m, flow := |StartedKeys(log)| + |QueuedKeys(queue)|, Flow(log, queue, timers);
    forall i, j | 0 <= i < j < |timers| ensures KeyLess(timers[i].key, timers[j].key) {
      assert flow[m + i] == timers[i].key && flow[m + j] == timers[j].key;
    }
  }

  class Kernel {
    const tickPeriod: nat        // timebase frequency / SCHED_TICK_DIV
    var queue: seq<Task>
    var running: int             // g_running_priority
    var timers: seq<Timer>
    var now: nat                 // the time CSR
    var deadline: nat            // last value given to sbi_set_timer
    var nextId: nat
    var nextReg: nat
    ghost var log: seq<Event>
    ghost var regs: seq<Registration>

    ghost predicate Valid()
      reads this
    {
      && TaskOrder(log, queue, nextId)
      && TimerOrder(log, queue, timers, now, nextReg)
      && Armed(timers, deadline)
      && WellNested(log)
      && running == Level(Stack(log))
    }

    ghost function Value(): View
      reads this
    {
      View(queue, timers, running, now, deadline, tickPeriod, nextId, nextReg, log, regs)
    }

    ghost function Work(): nat
      reads this
    {
      Value().Work()
    }

    constructor (tickPeriod: nat, now: nat)
      ensures Valid() && Value() == View([], [], PRIO_IDLE, now, now + tickPeriod, tickPeriod, 0, 0, [], [])
    {
      hide TaskOrder, TimerOrder, WellNested, Stack;
      this.tickPeriod, this.now, this.deadline := tickPeriod, now, now + tickPeriod;
      this.queue, this.timers, this.running := [], [], PRIO_IDLE;
      this.nextId, this.nextReg, this.log, this.regs := 0, 0, [], [];
      EmptyOrders(now);
    }

    /** The insertion walk of add_task: stop at the first strictly less urgent task. */
    method FindSlot(prio: int) returns (k: nat)
      ensures k <= |queue|
      ensures forall i :: 0 <= i < k ==> queue[i].prio <= prio
      ensures k < |queue| ==> prio < queue[k].prio
    {
      k := 0;
      while k < |queue| && !(prio < queue[k].prio)
        invariant k <= |queue|
        invariant forall i :: 0 <= i < k ==> queue[i].prio <= prio
      {
        k := k + 1;
      }
    }

    /** The insertion of add_task, for a node that was allocated. */
    method Add(prio: int, timer: Option<Key>, body: Script, tail: Script) returns (ghost k: nat)
      requires TaskOrder(log, queue, nextId)
      modifies `queue, `nextId
      ensures TaskOrder(log, queue, nextId)
      ensures k <= |old(queue)| && queue == InsertAt(old(queue), k, Task(old(nextId), prio, timer, body, tail))
      ensures queue == Enqueued(old(queue), Task(old(nextId), prio, timer, body, tail)) && nextId == old(nextId) + 1
      ensures forall i :: 0 <= i < k ==> old(queue)[i].prio <= prio
      ensures forall i :: k <= i < |old(queue)| ==> prio < old(queue)[i].prio
      ensures TaskWork(queue) == old(TaskWork(queue)) + 1 + Size(body) + Size(tail)
    {
      var t := Task(nextId, prio, timer, body, tail);
      var slot := FindSlot(prio);
      k := slot;
      AddTaskOrder(log, queue, nextId, slot, t);
      TaskWorkInsert(queue, slot, t);
      SlotIsEnqueued(queue, slot, t);
      assert forall i :: slot < i < |queue| ==> Before(queue[slot], queue[i]);
      queue := InsertAt(queue, slot, t);
      nextId := nextId + 1;
    }

    /** add_task of a callback; -1 and no change when there is no node for it. */
    method AddPlain(prio: int, body: Script, tail: Script, node: bool) returns (r: int, ghost k: nat)
      requires Valid()
      modifies `queue, `nextId
      ensures Valid() && r == (if node then 0 else -1)
      ensures Value() == if node then Added(old(Value()), prio, None, body, tail) else old(Value())
      ensures node ==>
                && k <= |old(queue)| && queue == InsertAt(old(queue), k, Task(old(nextId), prio, None, body, tail))
                && (forall i :: 0 <= i < k ==> old(queue)[i].prio <= prio)
                && (forall i :: k <= i < |old(queue)| ==> prio < old(queue)[i].prio)
                && nextId == old(nextId) + 1
    {
      k := 0;
      if !node {
        return -1, 0;
      }
      r := 0;
      k := Add(prio, None, body, tail);
      AddPlainTimerOrder(log, old(queue), timers, now, nextReg, k, Task(old(nextId), prio, None, body, tail));
    }

    /** The insertion walk of add_timer_ticks. */
    method FindTimerSlot(expire: nat) returns (k: nat)
      ensures k <= |timers|
      ensures forall i :: 0 <= i < k ==> timers[i].key.expire <= expire
      ensures k < |timers| ==> expire < timers[k].key.expire
    {
      k := 0;
      while k < |timers| && !(expire < timers[k].key.expire)
        invariant k <= |timers|
        invariant forall i :: 0 <= i < k ==> timers[i].key.expire <= expire
      {
        k := k + 1;
      }
    }

    method InsertTimer(n: Timer) returns (first: bool, ghost slot: nat)
      requires TimerOrder(log, queue, timers, now, nextReg) && n.key.reg == nextReg && now <= n.key.expire
      modifies `timers, `nextReg
      ensures TimerOrder(log, queue, timers, now, nextReg) && nextReg == old(nextReg) + 1
      ensures timers == Enrolled(old(timers), n) && timers != []
      ensures slot <= |old(timers)| && timers == InsertAt(old(timers), slot, n) && (first <==> slot == 0)
      ensures forall i :: 0 <= i < slot ==> old(timers)[i].key.expire <= n.key.expire
      ensures slot < |old(timers)| ==> n.key.expire < old(timers)[slot].key.expire
      ensures first <==> old(timers) == [] || n.key.expire < old(timers)[0].key.expire
      ensures timers[0] == if first then n else old(timers)[0]
    {
      var k := FindTimerSlot(n.key.expire);
      SlotIsEnrolled(timers, k, n);
      AddTimerOrder(log, queue, timers, now, nextReg, k, n);
      timers := InsertAt(timers, k, n);
      nextReg := nextReg + 1;
      first, slot := k == 0, k;
    }

    /**
     * add_timer_ticks: insert in expiry order and reprogram the hardware when the new timer is first; no
     * change when there is no node for it.
     */
    method SetTimer(ticks: nat, body: Script, tail: Script, node: bool) returns (ghost k: nat)
      requires Valid()
      modifies `timers, `deadline, `nextReg, `regs
      ensures Valid() && Value() == if node then WithTimer(old(Value()), ticks, body, tail) else old(Value())
      ensures node ==>
                && k <= |old(timers)|
                && timers == InsertAt(old(timers), k, Timer(Key(old(now) + ticks, old(nextReg)), body, tail))
                && (forall i :: 0 <= i < k ==> old(timers)[i].key.expire <= old(now) + ticks)
                && (k < |old(timers)| ==> old(now) + ticks < old(timers)[k].key.expire)
                && nextReg == old(nextReg) + 1
                && regs == old(regs) + [Registration(old(now), ticks, body, tail)]
                && deadline == if k == 0 then old(now) + ticks else old(deadline)
    {
      hide TaskOrder, WellNested, Stack, Enrolled, TimerOrder, Armed;
      k := 0;
      if !node {
        return;
      }
      k := Enrol(Timer(Key(now + ticks, nextReg), body, tail));
      regs := regs + [Registration(now, ticks, body, tail)];
    }

    method Enrol(n: Timer) returns (ghost k: nat)
      requires TimerOrder(log, queue, timers, now, nextReg) && Armed(timers, deadline)
      requires n.key.reg == nextReg && now <= n.key.expire
      modifies `timers, `deadline, `nextReg
      ensures TimerOrder(log, queue, timers, now, nextReg) && Armed(timers, deadline)
      ensures timers == Enrolled(old(timers), n) && nextReg == old(nextReg) + 1
      ensures k <= |old(timers)| && timers == InsertAt(old(timers), k, n)
      ensures forall i :: 0 <= i < k ==> old(timers)[i].key.expire <= n.key.expire
      ensures k < |old(timers)| ==> n.key.expire < old(timers)[k].key.expire
      ensures k == 0 <==> old(timers) == [] || n.key.expire < old(timers)[0].key.expire
      ensures deadline == if k == 0 then n.key.expire else old(deadline)
    {
      var first;
      first, k := InsertTimer(n);
      Reprogram(first, n.key.expire);
    }

    method Reprogram(first: bool, expire: nat)
      requires timers != [] && (if first then timers[0].key.expire == expire else deadline <= timers[0].key.expire)
      modifies `deadline
      ensures Armed(timers, deadline) && deadline == if first then expire else old(deadline)
    {
      if first {
        deadline := expire;
      }
    }

    /** Hand the earliest timer to the task queue. */
    method FireFirst() returns (ghost slot: nat)
      requires TaskOrder(log, queue, nextId) && TimerOrder(log, queue, timers, now, nextReg)
      requires timers != [] && timers[0].key.expire <= now
      modifies `timers, `queue, `nextId
      ensures TaskOrder(log, queue, nextId) && TimerOrder(log, queue, timers, now, nextReg)
      ensures Value() == FiredFirst(old(Value())) && Work() < old(Work())
      ensures var n := old(timers)[0];
              && slot <= |old(queue)| && timers == old(timers)[1..]
              && queue == InsertAt(old(queue), slot,
                                   Task(old(nextId), TIMER_TASK_PRIO, Some(n.key), n.body, n.tail))
    {
      var n := timers[0];
      slot := Add(TIMER_TASK_PRIO, Some(n.key), n.body, n.tail);
      FireOrder(log, old(queue), timers, now, nextReg, slot, Fired(n, old(nextId)));
      timers := timers[1..];
    }

    method Drain() returns (ghost k: nat)
      requires TaskOrder(log, queue, nextId) && TimerOrder(log, queue, timers, now, nextReg)
      modifies `timers, `queue, `nextId
      ensures TaskOrder(log, queue, nextId) && TimerOrder(log, queue, timers, now, nextReg)
      ensures Work() <= old(Work()) && Value() == Drained(old(Value()))
      ensures k <= |old(timers)| && timers == old(timers)[k..] && SplitsAt(old(timers), k, now)
    {
      k := 0;
      while timers != [] && timers[0].key.expire <= now
        invariant FiredUpTo(old(timers), timers, k, now)
        invariant TaskOrder(log, queue, nextId) && TimerOrder(log, queue, timers, now, nextReg)
        invariant Drained(Value()) == Drained(old(Value()))
        decreases |timers|
      {
        var slot := FireFirst();
        k := k + 1;
      }
      SplitWhere(log, queue, old(timers), now, nextReg, k);
    }

    /**
     * timer_top_half: hand every expired timer to the task queue, earliest first, and program the
     * next deadline.
     */
    method FireExpired() returns (ghost k: nat)
      requires Valid()
      modifies `timers, `queue, `nextId, `deadline
      ensures Valid() && Work() <= old(Work())
      ensures k <= |old(timers)| && timers == old(timers)[k..] && SplitsAt(old(timers), k, now)
      ensures Value() == AfterTopHalf(old(Value()))
      ensures deadline <= now + tickPeriod && (timers != [] ==> deadline <= timers[0].key.expire)
      ensures deadline == now + tickPeriod || (timers != [] && deadline == timers[0].key.expire)
    {
      k := Drain();
      var next := now + tickPeriod;
      if timers != [] && timers[0].key.expire < next {
        next := timers[0].key.expire;
      }
      deadline := next;
    }

    /** Take the head of the queue and make it the running callback. */
    method StartHead() returns (t: Task)
      requires Valid() && queue != [] && queue[0].prio < running
      modifies `queue, `running, `log
      ensures Valid() && t == old(queue)[0] && Value() == Started(old(Value())) && Stack(log) == old(Stack(log)) + [t]
      ensures queue == old(queue)[1..] && running == t.prio && log == old(log) + [Start(t, now)]
      ensures Work() + 1 + Size(t.body) + Size(t.tail) == old(Work())
    {
      t := queue[0];
      StartOrder(log, queue, nextId, now);
      StartTimerOrder(log, queue, timers, now, nextReg);
      Nest(log, t, now);
      queue := queue[1..];
      running := t.prio;
      log := log + [Start(t, now)];
    }

    /** The callback t has returned: restore the priority it interrupted. */
    method Finish(t: Task, prevPrio: int, ghost below: seq<Task>)
      requires Valid() && Stack(log) == below + [t] && prevPrio == Level(below) && TimerPrio(t)
      modifies `running, `log
      ensures Valid() && Value() == Ended(old(Value()), t, prevPrio) && Stack(log) == below
      ensures running == prevPrio && log == old(log) + [End(t, now)]
    {
      EndOrder(log, queue, nextId, t, now);
      EndTimerOrder(log, queue, timers, now, nextReg, t, now);
      Unnest(log, below, t, now);
      running := prevPrio;
      log := log + [End(t, now)];
    }

    /**
     * task_run_pending: start the head of the queue while it is strictly more urgent than what is
     * running. Returns to the priority and the callbacks it was entered with, leaving nothing more
     * urgent in the queue.
     */
    method RunTasks()
      requires Valid()
      modifies this
      ensures Valid() && running == old(running) && Stack(log) == old(Stack(log)) && old(log) <= log && old(now) <= now
      ensures queue == [] || queue[0].prio >= running
      ensures Work() <= old(Work()) && Value() == AfterTasks(old(Value()))
      decreases Work(), 1
    {
      while queue != [] && queue[0].prio < running
        invariant Valid() && running == old(running) && Stack(log) == old(Stack(log)) && old(log) <= log &&
                  old(now) <= now
        invariant Work() <= old(Work()) && AfterTasks(Value()) == AfterTasks(old(Value()))
        decreases Work()
      {
        RunHead();
      }
    }

    /** One turn of the loop: the head of the queue from start to finish. */
    method RunHead()
      requires Valid() && queue != [] && queue[0].prio < running
      modifies this
      ensures Valid() && running == old(running) && Stack(log) == old(Stack(log)) && old(log) <= log && old(now) <= now
      ensures Work() < old(Work()) && Value() == AfterHead(old(Value()))
      decreases Work(), 0
    {
      hide TaskOrder, WellNested, Armed, Executed, Stack, Level;
      var prevPrio := running;
      ghost var below := Stack(log);
      var t := StartHead();
      assert TimerPrio(t) by { assert log[|log| - 1].task == t; }
      RunStarted(t, prevPrio, below);
    }

    /** The callback that has just started, to its end and what interrupts do behind it. */
    method RunStarted(t: Task, prevPrio: int, ghost below: seq<Task>)
      requires Valid() && Stack(log) == below + [t] && prevPrio == Level(below) && TimerPrio(t)
      modifies this
      ensures Valid() && running == prevPrio && Stack(log) == below && old(log) <= log && old(now) <= now
      ensures Work() <= old(Work()) + Size(t.body) + Size(t.tail)
      ensures Value() == Executed(Ended(Executed(old(Value()), t.body), t, prevPrio), t.tail)
      decreases Work() + Size(t.body) + Size(t.tail), 3
    {
      Exec(t.body);
      WindUp(t, prevPrio, below);
    }

    method WindUp(t: Task, prevPrio: int, ghost below: seq<Task>)
      requires Valid() && Stack(log) == below + [t] && prevPrio == Level(below) && TimerPrio(t)
      modifies this
      ensures Valid() && running == prevPrio && Stack(log) == below && old(log) <= log && old(now) <= now
      ensures Work() <= old(Work()) + Size(t.tail) && Value() == Executed(Ended(old(Value()), t, prevPrio), t.tail)
      decreases Work() + Size(t.tail), 2
    {
      Finish(t, prevPrio, below);
      Exec(t.tail);
    }

    /** Run a callback, with the interrupts that hit it. */
    method Exec(script: Script)
      requires Valid()
      modifies this
      ensures Valid() && running == old(running) && Stack(log) == old(Stack(log)) && old(log) <= log && old(now) <= now
      ensures Work() <= old(Work()) + Size(script) && Value() == Executed(old(Value()), script)
      decreases Work() + Size(script), 1
    {
      if !script.Done? {
        Act(script);
        Exec(script.rest);
      }
    }

    method Act(script: Script)
      requires Valid() && !script.Done?
      modifies this
      ensures Valid() && running == old(running) && Stack(log) == old(Stack(log)) && old(log) <= log && old(now) <= now
      ensures Work() + Size(script.rest) < old(Work()) + Size(script) && Value() == Acted(old(Value()), script)
      decreases Work() + Size(script), 0
    {
      hide TaskOrder, WellNested, Armed, Stack;
      ghost var after := Acted(Value(), script);
      match script {
        case AddTask(prio, body, tail, node, _) => var r, k := AddPlain(prio, body, tail, node);
        case AddTimer(ticks, body, tail, node, _) => var k := SetTimer(ticks, body, tail, node);
        case Pass(ticks, _) => now := now + ticks;
        case TopHalf(_) => var k := FireExpired();
        case RunPending(_) => RunTasks();
      }
      assert Value() == after;
    }
  }

  /** Before anything has been queued. */
  lemma EmptyOrders(now: nat)
    ensures TaskOrder([], [], 0) && TimerOrder([], [], [], now, 0) && WellNested([]) && Level(Stack([])) == PRIO_IDLE
  {
  }

  lemma Nest(log: seq<Event>, t: Task, now: nat)
    requires WellNested(log) && t.prio < Level(Stack(log))
    ensures WellNested(log + [Start(t, now)]) && Stack(log + [Start(t, now)]) == Stack(log) + [t]
  {
    var log' := log + [Start(t, now)];
    assert log'[..|log'| - 1] == log;
  }

  lemma Unnest(log: seq<Event>, below: seq<Task>, t: Task, time: nat)
    requires WellNested(log) && Stack(log) == below + [t]
    ensures WellNested(log + [End(t, time)]) && Stack(log + [End(t, time)]) == below
  {
    var log' := log + [End(t, time)];
    assert log'[..|log'| - 1] == log;
    assert (below + [t])[..|below|] == below;
  }

  /** The first k timers have expired and no other has. */
  ghost predicate SplitsAt(timers: seq<Timer>, k: nat, now: nat)
    requires k <= |timers|
  {
    && (forall i :: 0 <= i < k ==> timers[i].key.expire <= now)
    && (forall i :: k <= i < |timers| ==> now < timers[i].key.expire)
  }

  /** The first k timers are gone, and had expired. */
  ghost predicate FiredUpTo(was: seq<Timer>, timers: seq<Timer>, k: nat, now: nat) {
    k <= |was| && timers == was[k..] && forall i :: 0 <= i < k ==> was[i].key.expire <= now
  }

  lemma SplitWhere(log: seq<Event>, queue: seq<Task>, timers: seq<Timer>, now: nat, nextReg: nat, k: nat)
    requires k <= |timers| && TimerOrder(log, queue, timers[k..], now, nextReg)
    requires forall i :: 0 <= i < k ==> timers[i].key.expire <= now
    requires k < |timers| ==> now < timers[k].key.expire
    ensures SplitsAt(timers, k, now)
  {
    var rest := timers[k..];
    WaitingSorted(log, queue, rest, now, nextReg);
    forall i | k <= i < |timers| ensures now < timers[i].key.expire {
      assert timers[i] == rest[i - k];
    }
  }

  // ---- what the log of a whole run satisfies ----

  lemma {:induction false} LaterThanEach(t: Task, log: seq<Event>, i: nat)
    requires Later(t, log) && i < |log| && log[i].Start?
    ensures log[i].task.id != t.id && (log[i].task.prio == t.prio ==> log[i].task.id < t.id)
  {
    if i < |log| - 1 {
      LaterThanEach(t, log[..|log| - 1], i);
    }
  }

  /** Every task starts at most once, and equally urgent tasks start in the order they were added. */
  lemma {:induction false} StartsInOrder(log: seq<Event>, nextId: nat, i: nat, j: nat)
    requires StartsOrdered(log, nextId) && i < j < |log| && log[i].Start? && log[j].Start?
    ensures log[i].task.id != log[j].task.id
    ensures log[i].task.prio == log[j].task.prio ==> log[i].task.id < log[j].task.id
  {
    var before := log[..|log| - 1];
    if j < |before| {
      StartsInOrder(before, nextId, i, j);
    } else {
      LaterThanEach(log[j].task, before, i);
    }
  }

  /** Inner callbacks are strictly more urgent than outer ones. */
  ghost predicate Descending(stack: seq<Task>) {
    forall i, j :: 0 <= i < j < |stack| ==> stack[j].prio < stack[i].prio
  }

  lemma {:induction false} StackDescends(log: seq<Event>)
    requires WellNested(log)
    ensures Descending(Stack(log))
    ensures forall i :: 0 <= i < |Stack(log)| ==> Level(Stack(log)) <= Stack(log)[i].prio
  {
    if log != [] {
      StackDescends(log[..|log| - 1]);
    }
  }

  /** A callback that has started and not ended is still on the stack. */
  lemma {:induction false} StillRunning(log: seq<Event>, i: nat)
    requires WellNested(log) && i < |log| && log[i].Start?
    requires forall k :: i < k < |log| ==> !Ends(log[k], log[i].task)
    ensures log[i].task in Stack(log)
  {
    var before, last := log[..|log| - 1], log[|log| - 1];
    var t := log[i].task;
    if i == |log| - 1 {
      assert Stack(log)[|Stack(before)|] == t;
    } else {
      StillRunning(before, i);
      var below := Stack(before);
      var x :| 0 <= x < |below| && below[x] == t;
      assert last.End? ==> below[|below| - 1] == last.task != t;
      assert Stack(log)[x] == t;
    }
  }

  /**
   * A callback interrupts another only if it is strictly more urgent: a start that is not follows the
   * end of the earlier one.
   */
  lemma NoOverlap(log: seq<Event>, i: nat, j: nat)
    requires i < j < |log| && log[i].Start? && log[j].Start? && WellNested(log[..j + 1])
    requires log[i].task.prio <= log[j].task.prio
    ensures exists k :: i < k < j && Ends(log[k], log[i].task)
  {
    var before := log[..j];
    assert log[..j + 1][..j] == before;
    assert before[i] == log[i];
    StackDescends(before);
    if forall k :: i < k < j ==> !Ends(log[k], log[i].task) {
      StillRunning(before, i);
    }
  }

  lemma {:induction false} NestedPrefix(log: seq<Event>, n: nat)
    requires WellNested(log) && n <= |log|
    ensures WellNested(log[..n])
  {
    if n < |log| {
      NestedPrefix(log[..|log| - 1], n);
      assert log[..|log| - 1][..n] == log[..n];
    } else {
      assert log[..n] == log;
    }
  }

  /** The place of a started timer among all of them. */
  lemma {:induction false} KeyPlace(log: seq<Event>, i: nat)
    requires i < |log| && log[i].Start? && log[i].task.timer.Some?
    ensures var x := |StartedKeys(log[..i])|;
            x < |StartedKeys(log)| && StartedKeys(log)[x] == log[i].task.timer.value
  {
    if i < |log| - 1 {
      assert log[..|log| - 1][..i] == log[..i];
      KeyPlace(log[..|log| - 1], i);
    }
  }

  lemma TimerStartsInOrder(log: seq<Event>, queue: seq<Task>, timers: seq<Timer>, now: nat, nextReg: nat, i: nat,
                           j: nat)
    requires TimerOrder(log, queue, timers, now, nextReg)
    requires i < j < |log| && log[i].Start? && log[j].Start? && log[i].task.timer.Some? && log[j].task.timer.Some?
    ensures KeyLess(log[i].task.timer.value, log[j].task.timer.value)
  {
    KeyPlace(log, i);
    KeyPlace(log, j);
    KeyPlace(log[..j], i);
    assert log[..j][..i] == log[..i];
    var keys, flow := StartedKeys(log), Flow(log, queue, timers);
    var x, y := |StartedKeys(log[..i])|, |StartedKeys(log[..j])|;
    assert flow[x] == keys[x] && flow[y] == keys[y];
  }

  /**
   * Timer callbacks over a whole run: they start in order of expiry, ties in order of registration, none
   * before its expiry, and each ends before the next begins.
   */
  lemma TimerCallbacksInOrder(log: seq<Event>, queue: seq<Task>, timers: seq<Timer>, now: nat, nextReg: nat, i: nat,
                              j: nat)
    requires WellNested(log) && TimerOrder(log, queue, timers, now, nextReg)
    requires i < j < |log| && log[i].Start? && log[j].Start? && log[i].task.timer.Some? && log[j].task.timer.Some?
    ensures KeyLess(log[i].task.timer.value, log[j].task.timer.value)
    ensures log[i].task.timer.value.expire <= log[i].time && log[j].task.timer.value.expire <= log[j].time
    ensures exists k :: i < k < j && Ends(log[k], log[i].task)
  {
    TimerStartsInOrder(log, queue, timers, now, nextReg, i, j);
    assert OnTime(log[i]) && OnTime(log[j]);
    NestedPrefix(log, j + 1);
    NoOverlap(log, i, j);
  }
}
