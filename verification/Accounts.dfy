/**
 * What the scripts executed in a run ask for is what happens: time passes, timers are registered and tasks
 * are queued exactly as often as the actions say, counted over the scripts themselves.
 */
module Accounts {
  import opened Wrappers
  import opened BottomHalf

  /** What add_task and add_timer_ticks are given. */
  datatype Job = Job(prio: int, body: Script, tail: Script)
  datatype Delay = Delay(ticks: nat, body: Script, tail: Script)

  /** Ticks passed, tasks added and timers set. */
  datatype Tally = Tally(ticks: nat, jobs: multiset<Job>, delays: multiset<Delay>)

  const Nothing: Tally := Tally(0, multiset{}, multiset{})

  function Plus(a: Tally, b: Tally): Tally {
    Tally(a.ticks + b.ticks, a.jobs + b.jobs, a.delays + b.delays)
  }

  /** The actions of a script itself; those of the callbacks it adds are not among them. */
  function Asked(s: Script): Tally {
    match s
    case Done => Nothing
    case AddTask(prio, body, tail, node, rest) =>
      Plus(if node then Tally(0, multiset{Job(prio, body, tail)}, multiset{}) else Nothing, Asked(rest))
    case AddTimer(ticks, body, tail, node, rest) =>
      Plus(if node then Tally(0, multiset{}, multiset{Delay(ticks, body, tail)}) else Nothing, Asked(rest))
    case Pass(ticks, rest) => Plus(Tally(ticks, multiset{}, multiset{}), Asked(rest))
    case TopHalf(rest) => Asked(rest)
    case RunPending(rest) => Asked(rest)
  }

  /** The actions of every callback started in the log. */
  function AskedBy(log: seq<Event>): Tally {
    if log == [] then Nothing
    else
      var e := log[|log| - 1];
      Plus(AskedBy(log[..|log| - 1]), if e.Start? then Plus(Asked(e.task.body), Asked(e.task.tail)) else Nothing)
  }

  /** The task as add_task was given it; the task of a timer was not. */
  function JobOf(t: Task): multiset<Job> {
    if t.timer.None? then multiset{Job(t.prio, t.body, t.tail)} else multiset{}
  }

  function QueuedJobs(queue: seq<Task>): multiset<Job> {
    if queue == [] then multiset{} else JobOf(queue[0]) + QueuedJobs(queue[1..])
  }

  function StartedJobs(log: seq<Event>): multiset<Job> {
    if log == [] then multiset{}
    else
      var e := log[|log| - 1];
      StartedJobs(log[..|log| - 1]) + if e.Start? then JobOf(e.task) else multiset{}
  }

  function Delays(regs: seq<Registration>): multiset<Delay> {
    if regs == [] then multiset{}
    else
      var r := regs[|regs| - 1];
      Delays(regs[..|regs| - 1]) + multiset{Delay(r.ticks, r.body, r.tail)}
  }

  /**
   * From v to w, `asked` was done besides the actions of all callbacks started in between: the clock moved
   * by the ticks passed, the timers registered are the delays asked for, the tasks queued or started since
   * are those queued before and those added, and numbers were given to these and to the timers that fired.
   */
  ghost predicate Accounted(v: View, w: View, asked: Tally) {
    && v.log <= w.log && v.regs <= w.regs
    && var log := w.log[|v.log|..];
       Balanced(v, w, log, w.regs[|v.regs|..], Plus(asked, AskedBy(log)))
  }

  ghost predicate Balanced(v: View, w: View, log: seq<Event>, regs: seq<Registration>, total: Tally) {
    && w.now == v.now + total.ticks
    && Delays(regs) == total.delays && w.nextReg == v.nextReg + |total.delays|
    && QueuedJobs(w.queue) + StartedJobs(log) == QueuedJobs(v.queue) + total.jobs
    && w.nextId + |w.timers| == v.nextId + |v.timers| + |total.jobs| + |total.delays|
  }

  // ---- the account composes ----

  lemma PlusAssociates(a: Tally, b: Tally, c: Tally)
    ensures Plus(Plus(a, b), c) == Plus(a, Plus(b, c))
  {
  }

  lemma PlusExchanges(a: Tally, b: Tally, c: Tally, d: Tally)
    ensures Plus(Plus(a, b), Plus(c, d)) == Plus(Plus(a, c), Plus(b, d))
  {
  }

  lemma PlusNothing(a: Tally)
    ensures Plus(a, Nothing) == a && Plus(Nothing, a) == a
  {
  }

  lemma {:induction false} AskedSums(a: seq<Event>, b: seq<Event>)
    ensures AskedBy(a + b) == Plus(AskedBy(a), AskedBy(b))
  {
    hide Plus, Asked;
    if b == [] {
      assert a + b == a;
      PlusNothing(AskedBy(a));
    } else {
      var e := b[|b| - 1];
      var x := if e.Start? then Plus(Asked(e.task.body), Asked(e.task.tail)) else Nothing;
      assert (a + b)[..|a + b| - 1] == a + b[..|b| - 1];
      AskedSums(a, b[..|b| - 1]);
      PlusAssociates(AskedBy(a), AskedBy(b[..|b| - 1]), x);
    }
  }

  lemma {:induction false} StartedSums(a: seq<Event>, b: seq<Event>)
    ensures StartedJobs(a + b) == StartedJobs(a) + StartedJobs(b)
  {
    if b == [] {
      assert a + b == a;
    } else {
      assert (a + b)[..|a + b| - 1] == a + b[..|b| - 1];
      StartedSums(a, b[..|b| - 1]);
    }
  }

  lemma {:induction false} DelaySums(a: seq<Registration>, b: seq<Registration>)
    ensures Delays(a + b) == Delays(a) + Delays(b)
  {
    if b == [] {
      assert a + b == a;
    } else {
      assert (a + b)[..|a + b| - 1] == a + b[..|b| - 1];
      DelaySums(a, b[..|b| - 1]);
    }
  }

  lemma Suffixes<T>(a: seq<T>, b: seq<T>, c: seq<T>)
    requires a <= b <= c
    ensures a <= c && c[|a|..] == b[|a|..] + c[|b|..]
  {
  }

  lemma JobsBalance(qu: multiset<Job>, qv: multiset<Job>, qw: multiset<Job>, s1: multiset<Job>, s2: multiset<Job>,
                    t1: multiset<Job>, t2: multiset<Job>)
    requires qv + s1 == qu + t1 && qw + s2 == qv + t2
    ensures qw + (s1 + s2) == qu + (t1 + t2)
  {
    assert qw + (s1 + s2) == (qv + t2) + s1;
    assert (qv + t2) + s1 == (qu + t1) + t2;
  }

  lemma BalanceComposes(u: View, v: View, w: View, l1: seq<Event>, l2: seq<Event>, r1: seq<Registration>,
                        r2: seq<Registration>, t1: Tally, t2: Tally)
    requires Balanced(u, v, l1, r1, t1) && Balanced(v, w, l2, r2, t2)
    ensures Balanced(u, w, l1 + l2, r1 + r2, Plus(t1, t2))
  {
    hide StartedJobs, QueuedJobs, Delays;
    StartedSums(l1, l2);
    DelaySums(r1, r2);
    JobsBalance(QueuedJobs(u.queue), QueuedJobs(v.queue), QueuedJobs(w.queue), StartedJobs(l1), StartedJobs(l2),
                t1.jobs, t2.jobs);
  }

  lemma Compose(u: View, v: View, w: View, a: Tally, b: Tally)
    requires Accounted(u, v, a) && Accounted(v, w, b)
    ensures Accounted(u, w, Plus(a, b))
  {
    hide Balanced, AskedBy, Plus;
    var l1, l2 := v.log[|u.log|..], w.log[|v.log|..];
    Suffixes(u.log, v.log, w.log);
    Suffixes(u.regs, v.regs, w.regs);
    AskedSums(l1, l2);
    BalanceComposes(u, v, w, l1, l2, v.regs[|u.regs|..], w.regs[|v.regs|..], Plus(a, AskedBy(l1)),
                    Plus(b, AskedBy(l2)));
    PlusExchanges(a, AskedBy(l1), b, AskedBy(l2));
  }

  lemma NothingAsked(v: View, w: View)
    requires w.log == v.log && w.regs == v.regs && w.now == v.now && w.nextReg == v.nextReg
    requires QueuedJobs(w.queue) == QueuedJobs(v.queue) && w.nextId + |w.timers| == v.nextId + |v.timers|
    ensures Accounted(v, w, Nothing)
  {
    hide QueuedJobs;
    Unlogged(v, w, Nothing);
  }

  /** A step that logs nothing. */
  lemma Unlogged(v: View, w: View, asked: Tally)
    requires w.log == v.log && v.regs <= w.regs && Balanced(v, w, [], w.regs[|v.regs|..], asked)
    ensures Accounted(v, w, asked)
  {
    hide Balanced, Plus;
    assert w.log[|v.log|..] == [];
    PlusNothing(asked);
  }

  // ---- every step has its account ----

  lemma {:induction false} EnqueuedJobs(queue: seq<Task>, t: Task)
    ensures QueuedJobs(Enqueued(queue, t)) == QueuedJobs(queue) + JobOf(t)
  {
    var r := Enqueued(queue, t);
    if queue == [] || t.prio < queue[0].prio {
      assert r[1..] == queue;
    } else {
      assert r[1..] == Enqueued(queue[1..], t);
      EnqueuedJobs(queue[1..], t);
    }
  }

  lemma {:induction false} EnrolledLength(timers: seq<Timer>, n: Timer)
    ensures |Enrolled(timers, n)| == |timers| + 1
  {
    if !(timers == [] || n.key.expire < timers[0].key.expire) {
      EnrolledLength(timers[1..], n);
    }
  }

  lemma AddedAccount(v: View, prio: int, body: Script, tail: Script)
    ensures Accounted(v, Added(v, prio, None, body, tail), Tally(0, multiset{Job(prio, body, tail)}, multiset{}))
  {
    hide Enqueued;
    EnqueuedJobs(v.queue, Task(v.nextId, prio, None, body, tail));
    Unlogged(v, Added(v, prio, None, body, tail), Tally(0, multiset{Job(prio, body, tail)}, multiset{}));
  }

  lemma WithTimerAccount(v: View, ticks: nat, body: Script, tail: Script)
    ensures Accounted(v, WithTimer(v, ticks, body, tail), Tally(0, multiset{}, multiset{Delay(ticks, body, tail)}))
  {
    var w := WithTimer(v, ticks, body, tail);
    EnrolledLength(v.timers, Timer(Key(v.now + ticks, v.nextReg), body, tail));
    assert w.regs[|v.regs|..] == [Registration(v.now, ticks, body, tail)];
    assert Delays([Registration(v.now, ticks, body, tail)]) == multiset{Delay(ticks, body, tail)};
    Unlogged(v, w, Tally(0, multiset{}, multiset{Delay(ticks, body, tail)}));
  }

  lemma {:induction false} DrainedAccount(v: View)
    ensures Accounted(v, Drained(v), Nothing)
    decreases |v.timers|
  {
    if v.timers != [] && v.timers[0].key.expire <= v.now {
      EnqueuedJobs(v.queue, Fired(v.timers[0], v.nextId));
      NothingAsked(v, FiredFirst(v));
      DrainedAccount(FiredFirst(v));
      Compose(v, FiredFirst(v), Drained(v), Nothing, Nothing);
      PlusNothing(Nothing);
    } else {
      NothingAsked(v, v);
    }
  }

  lemma TopHalfAccount(v: View)
    ensures Accounted(v, AfterTopHalf(v), Nothing)
  {
    DrainedAccount(v);
  }

  lemma EndedAccount(v: View, t: Task, prio: int)
    ensures Accounted(v, Ended(v, t, prio), Nothing)
  {
    hide QueuedJobs, Plus;
    assert Ended(v, t, prio).log[|v.log|..] == [End(t, v.now)];
    OneEvent(End(t, v.now));
    PlusNothing(Nothing);
  }

  lemma OneEvent(e: Event)
    ensures AskedBy([e]) == if e.Start? then Plus(Asked(e.task.body), Asked(e.task.tail)) else Nothing
    ensures StartedJobs([e]) == if e.Start? then JobOf(e.task) else multiset{}
  {
    hide Plus;
    assert [e][..0] == [];
    if e.Start? {
      PlusNothing(Plus(Asked(e.task.body), Asked(e.task.tail)));
    }
    PlusNothing(Nothing);
  }

  /** The head of the queue starts: what its script asks for is done by w. */
  lemma StartedAccount(v: View, w: View)
    requires v.queue != []
    requires Accounted(Started(v), w, Plus(Asked(v.queue[0].body), Asked(v.queue[0].tail)))
    ensures Accounted(v, w, Nothing)
  {
    hide AskedBy, Asked, Plus, Balanced;
    var e, rest := Start(v.queue[0], v.now), w.log[|v.log| + 1..];
    var asked := Plus(Asked(v.queue[0].body), Asked(v.queue[0].tail));
    Suffixes(v.log, v.log + [e], w.log);
    OneEvent(e);
    AskedSums([e], rest);
    PlusNothing(Plus(asked, AskedBy(rest)));
    StartedBalance(v, w, rest, w.regs[|v.regs|..], Plus(asked, AskedBy(rest)));
  }

  lemma StartedBalance(v: View, w: View, rest: seq<Event>, regs: seq<Registration>, total: Tally)
    requires v.queue != [] && Balanced(Started(v), w, rest, regs, total)
    ensures Balanced(v, w, [Start(v.queue[0], v.now)] + rest, regs, total)
  {
    hide Delays, StartedJobs, Plus;
    var e := Start(v.queue[0], v.now);
    OneEvent(e);
    StartedSums([e], rest);
    HeadMoves(JobOf(v.queue[0]), QueuedJobs(w.queue), StartedJobs(rest), QueuedJobs(v.queue[1..]), total.jobs);
  }

  lemma HeadMoves(head: multiset<Job>, qw: multiset<Job>, s: multiset<Job>, q: multiset<Job>, t: multiset<Job>)
    requires qw + s == q + t
    ensures qw + (head + s) == (head + q) + t
  {
    assert qw + (head + s) == head + (qw + s);
  }

  // ---- every callback runs its whole body ----

  /**
   * The callback started at i returns at k, and the time between is what its body passes and what the
   * callbacks started in between pass.
   */
  ghost predicate RunsWhole(log: seq<Event>, i: nat, k: nat) {
    && i < k < |log| && log[i].Start? && Ends(log[k], log[i].task)
    && log[k].time == log[i].time + Asked(log[i].task.body).ticks + AskedBy(log[i + 1..k]).ticks
  }

  /** So do all callbacks started at n or behind. */
  ghost predicate AllWhole(log: seq<Event>, n: nat) {
    forall i :: n <= i < |log| && log[i].Start? ==> exists k :: RunsWhole(log, i, k)
  }

  lemma WholeStays(log: seq<Event>, more: seq<Event>, i: nat, k: nat)
    requires RunsWhole(log, i, k) && log <= more
    ensures RunsWhole(more, i, k)
  {
    assert more[i + 1..k] == log[i + 1..k];
  }

  /** Callbacks of the first part ran whole, and those of the second. */
  lemma WholeJoin(log: seq<Event>, more: seq<Event>, n: nat)
    requires n <= |log| && log <= more && AllWhole(log, n) && AllWhole(more, |log|)
    ensures AllWhole(more, n)
  {
    forall i | n <= i < |more| && more[i].Start? ensures exists k :: RunsWhole(more, i, k) {
      if i < |log| {
        var k :| RunsWhole(log, i, k);
        WholeStays(log, more, i, k);
      }
    }
  }

  /** The callback at the head of v's queue, from its start to its end at w. */
  lemma HeadWhole(v: View, w: View, prio: int)
    requires v.queue != [] && Accounted(Started(v), w, Asked(v.queue[0].body)) && AllWhole(w.log, |v.log| + 1)
    ensures AllWhole(Ended(w, v.queue[0], prio).log, |v.log|)
  {
    var t := v.queue[0];
    var log := Ended(w, t, prio).log;
    var i, k := |v.log|, |w.log|;
    assert log[i] == Start(t, v.now) && log[k] == End(t, w.now) && log[i + 1..k] == w.log[|v.log| + 1..];
    assert RunsWhole(log, i, k);
    forall j | i <= j < |log| && log[j].Start? ensures exists m :: RunsWhole(log, j, m) {
      if j > i {
        assert w.log[j] == log[j];
        var m :| RunsWhole(w.log, j, m);
        WholeStays(w.log, log, j, m);
      }
    }
  }

  /** A run from v to w: its account, and every callback started in it ran whole. */
  ghost predicate Faithful(v: View, w: View, asked: Tally) {
    Accounted(v, w, asked) && AllWhole(w.log, |v.log|)
  }

  lemma FaithfulCompose(u: View, v: View, w: View, a: Tally, b: Tally)
    requires Faithful(u, v, a) && Faithful(v, w, b)
    ensures Faithful(u, w, Plus(a, b))
  {
    hide AllWhole;
    Compose(u, v, w, a, b);
    WholeJoin(v.log, w.log, |u.log|);
  }

  lemma NoCallback(v: View, w: View, asked: Tally)
    requires Accounted(v, w, asked) && forall i :: |v.log| <= i < |w.log| ==> w.log[i].End?
    ensures Faithful(v, w, asked)
  {
  }

  /** One turn of the dispatcher. */
  lemma {:induction false} AfterHeadFaithful(v: View)
    requires v.Urgent()
    ensures Faithful(v, AfterHead(v), Nothing)
    decreases v.Work(), 0
  {
    hide Accounted, AllWhole, AfterTasks, Asked;
    var t, s := v.queue[0], Started(v);
    ExecutedFaithful(s, t.body);
    var w := Executed(s, t.body);
    var e := Ended(w, t, v.running);
    EndedAccount(w, t, v.running);
    ExecutedFaithful(e, t.tail);
    var last := Executed(e, t.tail);
    HeadWhole(v, w, v.running);
    HeadAccount(v, w, e, last);
  }

  lemma HeadAccount(v: View, w: View, e: View, last: View)
    requires v.queue != [] && Accounted(Started(v), w, Asked(v.queue[0].body)) && Accounted(w, e, Nothing)
    requires Accounted(e, last, Asked(v.queue[0].tail))
    requires AllWhole(e.log, |v.log|) && AllWhole(last.log, |e.log|)
    ensures Faithful(v, last, Nothing)
  {
    var t := v.queue[0];
    Compose(Started(v), w, e, Asked(t.body), Nothing);
    Compose(Started(v), e, last, Plus(Asked(t.body), Nothing), Asked(t.tail));
    PlusNothing(Asked(t.body));
    StartedAccount(v, last);
    WholeJoin(e.log, last.log, |v.log|);
  }

  /** task_run_pending: the callbacks it starts do all that their scripts say, and nothing else happens. */
  lemma {:induction false} AfterTasksFaithful(v: View)
    ensures Faithful(v, AfterTasks(v), Nothing)
    decreases v.Work(), 1
  {
    hide Faithful, Plus;
    PlusNothing(Nothing);
    if v.Urgent() {
      AfterHeadFaithful(v);
      AfterTasksFaithful(AfterHead(v));
      FaithfulCompose(v, AfterHead(v), AfterTasks(v), Nothing, Nothing);
    } else {
      Idle(v);
    }
  }

  lemma Idle(v: View)
    ensures Faithful(v, v, Nothing)
  {
    NothingAsked(v, v);
    hide Accounted;
    NoCallback(v, v, Nothing);
  }

  /** What the first action of a script asks for. */
  function First(s: Script): Tally
    requires !s.Done?
  {
    match s
    case AddTask(prio, body, tail, node, _) =>
      if node then Tally(0, multiset{Job(prio, body, tail)}, multiset{}) else Nothing
    case AddTimer(ticks, body, tail, node, _) =>
      if node then Tally(0, multiset{}, multiset{Delay(ticks, body, tail)}) else Nothing
    case Pass(ticks, _) => Tally(ticks, multiset{}, multiset{})
    case TopHalf(_) => Nothing
    case RunPending(_) => Nothing
  }

  lemma {:induction false} ActedFaithful(v: View, script: Script)
    requires !script.Done?
    ensures Faithful(v, Acted(v, script), First(script))
    decreases v.Work() + Size(script), 0
  {
    hide Accounted, AllWhole, Enqueued, Enrolled, Nothing;
    match script
    case AddTask(prio, body, tail, node, _) =>
      Idle(v);
      AddedAccount(v, prio, body, tail);
      NoCallback(v, Added(v, prio, None, body, tail), Tally(0, multiset{Job(prio, body, tail)}, multiset{}));
    case AddTimer(ticks, body, tail, node, _) =>
      Idle(v);
      WithTimerAccount(v, ticks, body, tail);
      NoCallback(v, WithTimer(v, ticks, body, tail), Tally(0, multiset{}, multiset{Delay(ticks, body, tail)}));
    case Pass(ticks, _) =>
      PassAccount(v, ticks);
    case TopHalf(_) =>
      TopHalfAccount(v);
      DrainedLog(v);
      NoCallback(v, AfterTopHalf(v), Nothing);
    case RunPending(_) => AfterTasksFaithful(v);
  }

  lemma PassAccount(v: View, ticks: nat)
    ensures Faithful(v, v.(now := v.now + ticks), Tally(ticks, multiset{}, multiset{}))
  {
    var w := v.(now := v.now + ticks);
    Unlogged(v, w, Tally(ticks, multiset{}, multiset{}));
    hide Accounted;
    NoCallback(v, w, Tally(ticks, multiset{}, multiset{}));
  }

  lemma {:induction false} DrainedLog(v: View)
    ensures Drained(v).log == v.log && Drained(v).now == v.now && Drained(v).period == v.period
    decreases |v.timers|
  {
    if v.timers != [] && v.timers[0].key.expire <= v.now {
      DrainedLog(FiredFirst(v));
    }
  }

  /** Any script: what it asks for is done, and what every callback started meanwhile asks for. */
  lemma {:induction false} ExecutedFaithful(v: View, script: Script)
    ensures Faithful(v, Executed(v, script), Asked(script))
    decreases v.Work() + Size(script), 1
  {
    hide Faithful, Plus, Acted;
    if script.Done? {
      Idle(v);
    } else {
      ActedFaithful(v, script);
      ExecutedFaithful(Acted(v, script), script.rest);
      FaithfulCompose(v, Acted(v, script), Executed(v, script), First(script), Asked(script.rest));
      PlusNothing(Asked(script.rest));
    }
  }

  // ---- scripts in sequence ----

  /** s and then t. */
  function Then(s: Script, t: Script): Script {
    match s
    case Done => t
    case AddTask(prio, body, tail, node, rest) => AddTask(prio, body, tail, node, Then(rest, t))
    case AddTimer(ticks, body, tail, node, rest) => AddTimer(ticks, body, tail, node, Then(rest, t))
    case Pass(ticks, rest) => Pass(ticks, Then(rest, t))
    case TopHalf(rest) => TopHalf(Then(rest, t))
    case RunPending(rest) => RunPending(Then(rest, t))
  }

  lemma {:induction false} ExecutedThen(v: View, s: Script, t: Script)
    ensures Executed(v, Then(s, t)) == Executed(Executed(v, s), t)
    decreases s
  {
    if !s.Done? {
      assert Acted(v, Then(s, t)) == Acted(v, s);
      ExecutedThen(Acted(v, s), s.rest, t);
    }
  }

  /** Wherever a script calls task_run_pending, nothing more urgent than the running level is left behind. */
  lemma PollSettles(v: View, s: Script)
    ensures !Executed(v, Then(s, RunPending(Done))).Urgent()
  {
    ExecutedThen(v, s, RunPending(Done));
  }

  /** Wherever the timer interrupt hits, the first timer left has not expired and the deadline is exact. */
  lemma TopHalfSettles(v: View, s: Script)
    ensures var w := Executed(v, Then(s, TopHalf(Done)));
            && (w.timers != [] ==> w.now < w.timers[0].key.expire)
            && w.deadline <= w.now + w.period && (w.timers != [] ==> w.deadline <= w.timers[0].key.expire)
            && (w.deadline == w.now + w.period || (w.timers != [] && w.deadline == w.timers[0].key.expire))
  {
    ExecutedThen(v, s, TopHalf(Done));
    DrainedSettles(Executed(v, s));
    DrainedLog(Executed(v, s));
  }

  lemma {:induction false} DrainedSettles(v: View)
    ensures var w := Drained(v); w.timers != [] ==> w.now < w.timers[0].key.expire
    decreases |v.timers|
  {
    if v.timers != [] && v.timers[0].key.expire <= v.now {
      DrainedSettles(FiredFirst(v));
    }
  }
}
