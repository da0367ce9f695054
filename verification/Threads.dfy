/** Threads, the run queue, the reaper's list and the process tree, as values; a function for each operation. */
module Threads {
  import opened Sequences
  import opened Wrappers

  const BOOT: nat := 0  // the bootstrap thread, root of the process tree
  const IDLE: nat := 1

  datatype Status = Ready | Running | Blocked | Zombie

  /**
   * What a thread carries besides its run state. `user` tells user processes from kernel workers,
   * `image` whether the user image is still allocated, and `waiting` the child that a wait in progress, of
   * sys_waitpid or of the shell, has settled on.
   */
  datatype Info = Info(parent: Option<nat>, children: seq<nat>, exitStatus: int, user: bool, image: bool,
                       waiting: Option<nat>)

  /**
   * The kernel's threads by tid, with a record of what can be observed: the status each thread died
   * with, the results of waitpid, and the threads whose memory has been freed.
   */
  datatype State = State(status: map<nat, Status>, info: map<nat, Info>, runq: seq<nat>, zombies: seq<nat>,
                         current: nat, nextTid: nat,
                         exits: map<nat, int>, waited: seq<(nat, int)>, freed: seq<nat>)

  // ---- sequences as intrusive lists ----

  /** list_del of the node that holds t. */
  function Remove(s: seq<nat>, t: nat): seq<nat> {
    if s == [] then [] else if s[0] == t then s[1..] else [s[0]] + Remove(s[1..], t)
  }

  lemma {:induction false} RemoveMembers(s: seq<nat>, t: nat)
    requires NoDup(s)
    ensures NoDup(Remove(s, t))
    ensures forall x :: x in Remove(s, t) <==> x in s && x != t
  {
    if s != [] {
      RemoveMembers(s[1..], t);
      assert s == [s[0]] + s[1..];
      assert s[0] !in s[1..];
    }
  }

  /** Exactly the one node is gone, and the others are in the order they had. */
  lemma {:induction false} RemoveSplits(s: seq<nat>, t: nat) returns (i: nat)
    requires t in s
    ensures i < |s| && s[i] == t && Remove(s, t) == s[..i] + s[i + 1..]
  {
    i := 0;
    if s[0] != t {
      var j := RemoveSplits(s[1..], t);
      i := j + 1;
    }
  }

  lemma AppendMembers(s: seq<nat>, t: nat)
    requires NoDup(s) && t !in s
    ensures NoDup(s + [t]) && forall x :: x in s + [t] <==> x in s || x == t
  {
  }

  lemma TailMembers(s: seq<nat>)
    requires NoDup(s) && s != []
    ensures NoDup(s[1..]) && forall x :: x in s[1..] <==> x in s && x != s[0]
  {
    assert s == [s[0]] + s[1..];
  }

  // ---- invariants ----

  /** A thread is on the run queue, once, exactly when it is READY; only the current thread can be RUNNING. */
  ghost predicate QueueInv(status: map<nat, Status>, runq: seq<nat>, current: nat) {
    && current in status
    && NoDup(runq)
    && (forall t :: t in runq <==> t in status && status[t] == Ready)
    && (forall t :: t in status && status[t] == Running ==> t == current)
    && IDLE in status && (status[IDLE] == Ready || status[IDLE] == Running)
  }

  function Dead(status: map<nat, Status>): set<nat> {
    set t | t in status && status[t] == Zombie
  }

  /** t is linked into the process tree. */
  predicate Attached(info: map<nat, Info>, zombies: seq<nat>, t: nat) {
    t in info && t !in zombies
  }

  /** The children of t are attached, younger than t and name it as their parent. */
  ghost predicate ChildrenOk(info: map<nat, Info>, zombies: seq<nat>, t: nat)
    requires t in info
  {
    NoDup(info[t].children) &&
    forall c :: c in info[t].children ==> t < c && Attached(info, zombies, c) && info[c].parent == Some(t)
  }

  /** t is among the children of the thread it names as its parent. */
  predicate ListedByParent(info: map<nat, Info>, t: nat)
    requires t in info
  {
    info[t].parent.Some? && info[t].parent.value in info && t in info[info[t].parent.value].children
  }

  /** Parent and children links form a tree over the threads not yet handed to the reaper, rooted at BOOT. */
  ghost predicate TreeInv(info: map<nat, Info>, zombies: seq<nat>, nextTid: nat) {
    && Attached(info, zombies, BOOT) && info[BOOT].parent == None
    && (forall t :: t in info ==> t < nextTid)
    && (forall t {:trigger ChildrenOk(info, zombies, t)} :: t in info ==> ChildrenOk(info, zombies, t))
    && (forall t {:trigger ListedByParent(info, t)} :: t in info && t !in zombies && t != BOOT ==>
        ListedByParent(info, t))
    && NoDup(zombies)
  }

  /** The dead have no image; those on the reaper's list are dead and have no children. */
  ghost predicate DeadInv(info: map<nat, Info>, dead: set<nat>, zombies: seq<nat>) {
    && BOOT !in dead && BOOT in info && !info[BOOT].user && IDLE in info && !info[IDLE].user
    && (forall t :: t in info ==> info[t].image == (info[t].user && t !in dead))
    && (forall t :: t in dead ==> t in info)
    && (forall t :: t in zombies ==> t in dead && t in info && info[t].children == [])
  }

  /** A wait in progress has settled on a user child; user processes have user children. */
  ghost predicate WaitInv(info: map<nat, Info>) {
    && (forall t :: t in info && info[t].waiting.Some? ==> UserChild(info, t, info[t].waiting.value))
    && (forall t, c :: t in info && info[t].user && c in info[t].children && c in info ==> info[c].user)
    && (IDLE in info ==> info[IDLE].waiting.None?)
  }

  predicate UserChild(info: map<nat, Info>, t: nat, c: nat)
    requires t in info
  {
    c in info[t].children && (c in info ==> info[c].user)
  }

  /** The record: a status for exactly the dead and the freed, true results, nothing freed twice. */
  ghost predicate RecordInv(info: map<nat, Info>, dead: set<nat>, nextTid: nat, exits: map<nat, int>,
                            waited: seq<(nat, int)>, freed: seq<nat>) {
    && (forall t :: t in dead && t in info ==> t in exits && exits[t] == info[t].exitStatus)
    && (forall t :: t in exits ==> t < nextTid && (t in dead || t in freed))
    && (forall i :: 0 <= i < |waited| ==> waited[i].0 in exits && exits[waited[i].0] == waited[i].1)
    && NoDup(freed)
    && (forall t :: t in freed ==> t !in info && t < nextTid)
  }

  /** No wakeup is lost: a thread blocked in a wait waits for a child that is still alive. */
  ghost predicate NoLostWakeup(status: map<nat, Status>, info: map<nat, Info>) {
    forall t :: t in status && t in info && status[t] == Blocked && info[t].waiting.Some? ==>
      info[t].waiting.value !in Dead(status)
  }

  ghost predicate ProcessInv(info: map<nat, Info>, dead: set<nat>, zombies: seq<nat>, nextTid: nat) {
    TreeInv(info, zombies, nextTid) && DeadInv(info, dead, zombies) && WaitInv(info)
  }

  /** Everything but the absence of lost wakeups. */
  ghost predicate Basic(s: State) {
    && s.status.Keys == s.info.Keys
    && QueueInv(s.status, s.runq, s.current)
    && ProcessInv(s.info, Dead(s.status), s.zombies, s.nextTid)
    && RecordInv(s.info, Dead(s.status), s.nextTid, s.exits, s.waited, s.freed)
  }

  ghost predicate Inv(s: State) {
    Basic(s) && NoLostWakeup(s.status, s.info)
  }

  // ---- steps that only move threads between run states ----

  /** s' differs from s only in run states other than ZOMBIE, queue and current thread. */
  ghost predicate RunStateStep(s: State, s': State) {
    && s'.status.Keys == s.status.Keys && Dead(s'.status) == Dead(s.status)
    && s' == s.(status := s'.status, runq := s'.runq, current := s'.current)
  }

  lemma RunStateKeeps(s: State, s': State)
    requires Basic(s) && RunStateStep(s, s') && QueueInv(s'.status, s'.runq, s'.current)
    ensures Basic(s')
  {
  }

  /** thread_wakeup. */
  function Wake(s: State, t: nat): State
    requires t in s.status
  {
    if s.status[t] == Blocked then s.(status := s.status[t := Ready], runq := s.runq + [t]) else s
  }

  lemma WakeQueue(s: State, t: nat)
    requires QueueInv(s.status, s.runq, s.current) && t in s.status
    ensures QueueInv(Wake(s, t).status, Wake(s, t).runq, s.current) && RunStateStep(s, Wake(s, t))
    ensures forall x :: x in s.status && Wake(s, t).status[x] == Blocked ==> s.status[x] == Blocked && x != t
  {
    if s.status[t] == Blocked {
      AppendMembers(s.runq, t);
    }
    assert Dead(Wake(s, t).status) == Dead(s.status);
  }

  lemma WakeKeeps(s: State, t: nat)
    requires Basic(s) && t in s.status
    ensures Basic(Wake(s, t)) && RunStateStep(s, Wake(s, t))
    ensures NoLostWakeup(s.status, s.info) ==> NoLostWakeup(Wake(s, t).status, s.info)
  {
    WakeQueue(s, t);
    RunStateKeeps(s, Wake(s, t));
  }

  /** The first half of thread_block. */
  function Block(s: State): State
    requires s.current in s.status
  {
    s.(status := s.status[s.current := Blocked])
  }

  lemma BlockQueue(s: State)
    requires QueueInv(s.status, s.runq, s.current) && s.status[s.current] == Running && s.current != IDLE
    ensures QueueInv(Block(s).status, s.runq, s.current) && RunStateStep(s, Block(s))
  {
    assert Dead(Block(s).status) == Dead(s.status);
  }

  lemma BlockKeeps(s: State)
    requires Inv(s) && s.status[s.current] == Running && s.current != IDLE
    requires s.info[s.current].waiting.Some? ==> s.info[s.current].waiting.value !in Dead(s.status)
    ensures Inv(Block(s))
  {
    BlockQueue(s);
    RunStateKeeps(s, Block(s));
  }

  // ---- schedule ----

  /** prev put back at the tail of the queue if it is still RUNNING. */
  function Requeue(s: State): State
    requires s.current in s.status
  {
    if s.status[s.current] == Running
    then s.(status := s.status[s.current := Ready], runq := s.runq + [s.current]) else s
  }

  /** schedule. */
  function Schedule(s: State): State
    requires s.current in s.status
  {
    var s1 := Requeue(s);
    if s1.runq == [] then
      if s1.status[s.current] == Ready then s1.(status := s1.status[s.current := Running]) else s1
    else
      var next := s1.runq[0];
      s1.(status := s1.status[next := Running], runq := s1.runq[1..], current := next)
  }

  lemma RequeueReady(s: State)
    requires QueueInv(s.status, s.runq, s.current)
    ensures var s1 := Requeue(s);
            && NoDup(s1.runq) && s1.runq != [] && s1.status.Keys == s.status.Keys && Dead(s1.status) == Dead(s.status)
            && (forall t :: t in s1.runq <==> t in s1.status && s1.status[t] == Ready)
            && (forall t :: t in s1.status ==> s1.status[t] != Running)
            && s1.status[IDLE] == Ready
            && (forall t :: t in s.status && s1.status[t] == Blocked ==> s.status[t] == Blocked)
  {
    var s1 := Requeue(s);
    if s.status[s.current] == Running {
      AppendMembers(s.runq, s.current);
    }
    assert IDLE in s1.runq;
    assert Dead(s1.status) == Dead(s.status);
  }

  /**
   * schedule always finds a successor: afterwards exactly the current thread is RUNNING, and it is the
   * one that was first in line.
   */
  lemma ScheduleDispatches(s: State)
    requires QueueInv(s.status, s.runq, s.current)
    ensures var s', q := Schedule(s), Requeue(s).runq;
            && QueueInv(s'.status, s'.runq, s'.current) && RunStateStep(s, s')
            && q != [] && s'.current == q[0] && s'.runq == q[1..]
            && (forall t :: t in s'.status && s'.status[t] == Running <==> t == s'.current)
            && (forall t :: t in s.status && s'.status[t] == Blocked ==> s.status[t] == Blocked)
  {
    RequeueReady(s);
    var s1 := Requeue(s);
    TailMembers(s1.runq);
    assert s1.runq[0] in s1.runq;
    assert Dead(Schedule(s).status) == Dead(s1.status);
  }

  lemma ScheduleKeeps(s: State)
    requires Inv(s)
    ensures Inv(Schedule(s))
  {
    ScheduleDispatches(s);
    RunStateKeeps(s, Schedule(s));
  }

  // ---- dying ----

  /** The dying part shared by sys_exit, sys_stop, signal_default_terminate and thread_exit. */
  function Die(s: State, t: nat, code: int): State
    requires t in s.status && t in s.info
  {
    s.(status := s.status[t := Zombie],
       info := s.info[t := s.info[t].(exitStatus := code, image := false)],
       runq := if s.status[t] == Ready then Remove(s.runq, t) else s.runq,
       exits := s.exits[t := code])
  }

  /** t can die: it is alive and neither the bootstrap nor the idle thread. */
  ghost predicate Mortal(s: State, t: nat) {
    t in s.status && t in s.info && s.status[t] != Zombie && t != BOOT && t != IDLE
  }

  /** Replacing a thread's information without touching its links keeps the tree. */
  lemma SameLinksTree(info: map<nat, Info>, zombies: seq<nat>, nextTid: nat, t: nat, x: Info)
    requires TreeInv(info, zombies, nextTid) && t in info && x.parent == info[t].parent &&
             x.children == info[t].children
    ensures TreeInv(info[t := x], zombies, nextTid)
  {
    var info' := info[t := x];
    forall u | u in info' ensures u < nextTid && ChildrenOk(info', zombies, u) {
      assert ChildrenOk(info, zombies, u);
    }
    forall u | u in info' && u !in zombies && u != BOOT ensures ListedByParent(info', u) {
      assert ListedByParent(info, u);
    }
  }

  lemma DieQueue(s: State, t: nat, code: int)
    requires QueueInv(s.status, s.runq, s.current) && Mortal(s, t)
    ensures QueueInv(Die(s, t, code).status, Die(s, t, code).runq, s.current)
    ensures Dead(Die(s, t, code).status) == Dead(s.status) + {t}
  {
    RemoveMembers(s.runq, t);
  }

  lemma DieRecord(s: State, t: nat, code: int)
    requires RecordInv(s.info, Dead(s.status), s.nextTid, s.exits, s.waited, s.freed) && Mortal(s, t) && t < s.nextTid
    ensures var s' := Die(s, t, code);
            RecordInv(s'.info, Dead(s.status) + {t}, s.nextTid, s'.exits, s.waited, s.freed)
  {
    assert t !in s.exits;
  }

  lemma DieDead(info: map<nat, Info>, dead: set<nat>, zombies: seq<nat>, t: nat, code: int)
    requires DeadInv(info, dead, zombies) && t in info && t != BOOT && t != IDLE
    ensures DeadInv(info[t := info[t].(exitStatus := code, image := false)], dead + {t}, zombies)
  {
  }

  lemma SameLinksWait(info: map<nat, Info>, t: nat, x: Info)
    requires WaitInv(info) && t in info && x.user == info[t].user && x.children == info[t].children &&
             x.waiting == info[t].waiting
    ensures WaitInv(info[t := x])
  {
  }

  lemma DieProcess(info: map<nat, Info>, dead: set<nat>, zombies: seq<nat>, nextTid: nat, t: nat, code: int)
    requires ProcessInv(info, dead, zombies, nextTid) && t in info && t != BOOT && t != IDLE
    ensures ProcessInv(info[t := info[t].(exitStatus := code, image := false)], dead + {t}, zombies, nextTid)
  {
    var x := info[t].(exitStatus := code, image := false);
    DieDead(info, dead, zombies, t, code);
    SameLinksTree(info, zombies, nextTid, t, x);
    SameLinksWait(info, t, x);
  }

  lemma DieKeeps(s: State, t: nat, code: int)
    requires Basic(s) && Mortal(s, t)
    ensures Basic(Die(s, t, code))
    ensures Dead(Die(s, t, code).status) == Dead(s.status) + {t}
  {
    DieQueue(s, t, code);
    DieRecord(s, t, code);
    DieProcess(s.info, Dead(s.status), s.zombies, s.nextTid, t, code);
  }

  /** The wakeup that follows a death. */
  function WakeParent(s: State, t: nat): State
    requires t in s.info && (s.info[t].parent.Some? ==> s.info[t].parent.value in s.status)
  {
    if s.info[t].parent.Some? then Wake(s, s.info[t].parent.value) else s
  }

  lemma DieWakeNoLost(status: map<nat, Status>, info: map<nat, Info>, status': map<nat, Status>, info': map<nat, Info>,
                      t: nat, p: nat)
    requires NoLostWakeup(status, info) && status'.Keys == status.Keys && info'.Keys == info.Keys
    requires forall u :: u in info && info[u].waiting == Some(t) ==> u == p
    requires forall u :: u in info ==> info'[u].waiting == info[u].waiting
    requires forall u :: u in status && status'[u] == Blocked ==> status[u] == Blocked && u != p
    requires Dead(status') == Dead(status) + {t}
    ensures NoLostWakeup(status', info')
  {
  }

  lemma DieWakeStatus(s: State, t: nat, code: int, p: nat)
    requires QueueInv(s.status, s.runq, s.current) && s.status.Keys == s.info.Keys && Mortal(s, t)
    requires s.info[t].parent == Some(p) && p in s.status
    ensures var s' := WakeParent(Die(s, t, code), t);
            && s'.status.Keys == s.status.Keys && s'.info.Keys == s.info.Keys
            && (forall u :: u in s.info ==> s'.info[u].waiting == s.info[u].waiting)
            && (forall u :: u in s.status && s'.status[u] == Blocked ==> s.status[u] == Blocked && u != p)
            && Dead(s'.status) == Dead(s.status) + {t}
  {
    DieQueue(s, t, code);
    WakeQueue(Die(s, t, code), p);
  }

  lemma DieWakeBasic(s: State, t: nat, code: int)
    requires Basic(s) && Mortal(s, t) && t !in s.zombies
    ensures s.info[t].parent.Some? && s.info[t].parent.value in s.status && Basic(WakeParent(Die(s, t, code), t))
  {
    assert ListedByParent(s.info, t);
    DieKeeps(s, t, code);
    WakeKeeps(Die(s, t, code), s.info[t].parent.value);
  }

  /** Death of an attached thread followed by waking its parent loses no wakeup. */
  lemma DieWakeKeeps(s: State, t: nat, code: int)
    requires Inv(s) && Mortal(s, t) && t !in s.zombies
    ensures s.info[t].parent.Some? && s.info[t].parent.value in s.status && Inv(WakeParent(Die(s, t, code), t))
  {
    DieWakeBasic(s, t, code);
    var p, s' := s.info[t].parent.value, WakeParent(Die(s, t, code), t);
    DieWakeStatus(s, t, code, p);
    WaitersAreParents(s.info, s.zombies, s.nextTid, t, p);
    DieWakeNoLost(s.status, s.info, s'.status, s'.info, t, p);
  }

  /** Only the parent of t can be waiting for t. */
  lemma WaitersAreParents(info: map<nat, Info>, zombies: seq<nat>, nextTid: nat, t: nat, p: nat)
    requires TreeInv(info, zombies, nextTid) && WaitInv(info) && t in info && info[t].parent == Some(p)
    ensures forall u :: u in info && info[u].waiting == Some(t) ==> u == p
  {
    forall u | u in info && info[u].waiting == Some(t) ensures u == p {
      assert ChildrenOk(info, zombies, u);
    }
  }

  // ---- leaving the tree ----

  /** Unlink t from its parent's children and hand it to the reaper. */
  function Detach(s: State, t: nat): State
    requires t in s.info && s.info[t].parent.Some? && s.info[t].parent.value in s.info
  {
    var p := s.info[t].parent.value;
    s.(info := s.info[p := s.info[p].(children := Remove(s.info[p].children, t))], zombies := s.zombies + [t])
  }

  lemma DetachTree(info: map<nat, Info>, zombies: seq<nat>, nextTid: nat, t: nat, p: nat)
    requires TreeInv(info, zombies, nextTid) && t in info && t !in zombies && t != BOOT && info[t].parent == Some(p)
    requires info[t].children == []
    ensures p in info && p != t
    ensures TreeInv(info[p := info[p].(children := Remove(info[p].children, t))], zombies + [t], nextTid)
  {
    assert ListedByParent(info, t);
    assert ChildrenOk(info, zombies, p);
    RemoveMembers(info[p].children, t);
    AppendMembers(zombies, t);
    var info', zombies' := info[p := info[p].(children := Remove(info[p].children, t))], zombies + [t];
    forall u | u in info' ensures u < nextTid && ChildrenOk(info', zombies', u) {
      assert ChildrenOk(info, zombies, u);
    }
    forall u | u in info' && u !in zombies' && u != BOOT ensures ListedByParent(info', u) {
      assert ListedByParent(info, u);
    }
  }

  lemma DetachWait(info: map<nat, Info>, zombies: seq<nat>, nextTid: nat, t: nat, p: nat)
    requires TreeInv(info, zombies, nextTid) && WaitInv(info) && t in info && p in info && info[p].waiting != Some(t)
    ensures WaitInv(info[p := info[p].(children := Remove(info[p].children, t))])
  {
    assert ChildrenOk(info, zombies, p);
    RemoveMembers(info[p].children, t);
  }

  lemma SameDeathsDead(info: map<nat, Info>, dead: set<nat>, zombies: seq<nat>, p: nat, x: Info, t: nat)
    requires DeadInv(info, dead, zombies) && p in info && x.user == info[p].user && x.image == info[p].image
    requires t in dead && t in info && t != p && info[t].children == [] && (info[p].children == [] ==> x.children == [])
    ensures DeadInv(info[p := x], dead, zombies + [t])
  {
  }

  lemma SameStatusRecord(info: map<nat, Info>, dead: set<nat>, nextTid: nat, exits: map<nat, int>,
                         waited: seq<(nat, int)>, freed: seq<nat>, p: nat, x: Info)
    requires RecordInv(info, dead, nextTid, exits, waited, freed) && p in info && x.exitStatus == info[p].exitStatus
    ensures RecordInv(info[p := x], dead, nextTid, exits, waited, freed)
  {
  }

  lemma DetachProcess(info: map<nat, Info>, dead: set<nat>, zombies: seq<nat>, nextTid: nat, t: nat, p: nat)
    requires ProcessInv(info, dead, zombies, nextTid) && t in dead && t !in zombies && info[t].children == []
    requires info[t].parent == Some(p) && p in info && info[p].waiting != Some(t)
    ensures ProcessInv(info[p := info[p].(children := Remove(info[p].children, t))], dead, zombies + [t], nextTid)
  {
    DetachTree(info, zombies, nextTid, t, p);
    DetachWait(info, zombies, nextTid, t, p);
    SameDeathsDead(info, dead, zombies, p, info[p].(children := Remove(info[p].children, t)), t);
  }

  lemma DetachKeeps(s: State, t: nat)
    requires Basic(s) && t in Dead(s.status) && t !in s.zombies && s.info[t].children == []
    requires s.info[t].parent.Some? && s.info[t].parent.value in s.info &&
             s.info[s.info[t].parent.value].waiting != Some(t)
    ensures Basic(Detach(s, t))
    ensures NoLostWakeup(s.status, s.info) ==> NoLostWakeup(s.status, Detach(s, t).info)
  {
    var p := s.info[t].parent.value;
    DetachProcess(s.info, Dead(s.status), s.zombies, s.nextTid, t, p);
    SameStatusRecord(s.info, Dead(s.status), s.nextTid, s.exits, s.waited, s.freed, p,
                     s.info[p].(children := Remove(s.info[p].children, t)));
  }

  // ---- adoption ----

  /** After k turns of sys_exit's loop: the first k children of t have moved to the bootstrap thread, in order. */
  function Adopted(info: map<nat, Info>, t: nat, k: nat): map<nat, Info>
    requires t in info && BOOT in info && t != BOOT && k <= |info[t].children|
  {
    var moved := info[t].children[..k];
    map u | u in info ::
      if u == t then info[u].(children := info[t].children[k..])
      else if u == BOOT then info[u].(children := info[u].children + moved)
      else if u in moved then info[u].(parent := Some(BOOT))
      else info[u]
  }

  function AdoptAll(info: map<nat, Info>, t: nat): map<nat, Info>
    requires t in info && BOOT in info && t != BOOT
  {
    Adopted(info, t, |info[t].children|)
  }

  /** The children of two parents are different threads. */
  lemma ChildrenDisjoint(info: map<nat, Info>, zombies: seq<nat>, nextTid: nat, t: nat, u: nat)
    requires TreeInv(info, zombies, nextTid) && t in info && u in info && t != u
    ensures forall c :: c in info[t].children ==> c !in info[u].children
    ensures forall c :: c in info[t].children ==> c in info && c != t && c != BOOT
  {
    assert ChildrenOk(info, zombies, t);
    assert ChildrenOk(info, zombies, u);
  }

  lemma ConcatNoDup(a: seq<nat>, b: seq<nat>)
    requires NoDup(a) && NoDup(b) && forall c :: c in b ==> c !in a
    ensures NoDup(a + b) && forall c :: c in a + b <==> c in a || c in b
  {
    forall i, j | 0 <= i < j < |a + b| ensures (a + b)[i] != (a + b)[j] {
      if i < |a| <= j {
        assert b[j - |a|] in b && a[i] in a;
      }
    }
  }

  lemma AdoptTree(info: map<nat, Info>, zombies: seq<nat>, nextTid: nat, t: nat)
    requires TreeInv(info, zombies, nextTid) && t in info && t != BOOT
    ensures TreeInv(AdoptAll(info, t), zombies, nextTid)
  {
    var info', cs := AdoptAll(info, t), info[t].children;
    assert cs[..|cs|] == cs && cs[|cs|..] == [];
    ChildrenDisjoint(info, zombies, nextTid, t, BOOT);
    assert ChildrenOk(info, zombies, t) && ChildrenOk(info, zombies, BOOT);
    ConcatNoDup(info[BOOT].children, cs);
    forall u | u in info' ensures u < nextTid && ChildrenOk(info', zombies, u) {
      AdoptChildren(info, zombies, nextTid, t, u);
    }
    forall u | u in info' && u !in zombies && u != BOOT ensures ListedByParent(info', u) {
      assert ListedByParent(info, u);
    }
  }

  lemma AdoptChildren(info: map<nat, Info>, zombies: seq<nat>, nextTid: nat, t: nat, u: nat)
    requires TreeInv(info, zombies, nextTid) && t in info && t != BOOT && u in info
    ensures ChildrenOk(AdoptAll(info, t), zombies, u)
  {
    var info', cs := AdoptAll(info, t), info[t].children;
    assert cs[..|cs|] == cs && cs[|cs|..] == [];
    assert ChildrenOk(info, zombies, t) && ChildrenOk(info, zombies, u);
    if u == BOOT {
      ChildrenDisjoint(info, zombies, nextTid, t, BOOT);
      ConcatNoDup(info[BOOT].children, cs);
    } else if u != t {
      ChildrenDisjoint(info, zombies, nextTid, t, u);
    }
  }

  lemma AdoptRest(info: map<nat, Info>, dead: set<nat>, zombies: seq<nat>, t: nat)
    requires DeadInv(info, dead, zombies) && WaitInv(info) && t in info && t != BOOT && BOOT in info
    requires info[t].user && info[t].waiting.None?
    ensures DeadInv(AdoptAll(info, t), dead, zombies) && WaitInv(AdoptAll(info, t))
  {
    var info', cs := AdoptAll(info, t), info[t].children;
    assert cs[..|cs|] == cs && cs[|cs|..] == [];
    assert forall x :: x in info'[BOOT].children <==> x in info[BOOT].children || x in cs;
  }

  lemma AdoptFacts(info: map<nat, Info>, t: nat)
    requires t in info && BOOT in info && t != BOOT
    ensures AdoptAll(info, t).Keys == info.Keys && AdoptAll(info, t)[t] == info[t].(children := [])
    ensures forall u :: u in info ==>
              AdoptAll(info, t)[u].waiting == info[u].waiting && AdoptAll(info, t)[u].exitStatus == info[u].exitStatus
  {
  }

  lemma AdoptProcess(info: map<nat, Info>, dead: set<nat>, zombies: seq<nat>, nextTid: nat, t: nat)
    requires ProcessInv(info, dead, zombies, nextTid) && t in info && t != BOOT && info[t].user && info[t].waiting.None?
    ensures ProcessInv(AdoptAll(info, t), dead, zombies, nextTid)
  {
    AdoptTree(info, zombies, nextTid, t);
    AdoptRest(info, dead, zombies, t);
  }

  lemma AliveNotReaped(s: State, t: nat)
    requires Basic(s) && t in s.status && s.status[t] != Zombie
    ensures t in s.info && t !in Dead(s.status) && t !in s.zombies
  {
  }

  /** sys_exit up to its call of schedule. */
  function Exit(s: State, code: int): State
    requires s.current in s.info && s.current in s.status && BOOT in s.info && s.current != BOOT
    requires s.info[s.current].parent.Some? && s.info[s.current].parent.value in s.status
  {
    WakeParent(Die(s.(info := AdoptAll(s.info, s.current)), s.current, code), s.current)
  }

  lemma ExitAdopts(s: State)
    requires Inv(s) && s.info[s.current].user && s.info[s.current].waiting.None? && s.current != BOOT
    ensures var s1 := s.(info := AdoptAll(s.info, s.current));
            Inv(s1) && s1.info[s.current] == s.info[s.current].(children := [])
  {
    var info' := AdoptAll(s.info, s.current);
    AdoptProcess(s.info, Dead(s.status), s.zombies, s.nextTid, s.current);
    AdoptFacts(s.info, s.current);
    AdoptRecord(s.info, info', Dead(s.status), s.nextTid, s.exits, s.waited, s.freed);
    SameWaitNoLost(s.status, s.info, info');
  }

  lemma SameWaitNoLost(status: map<nat, Status>, info: map<nat, Info>, info': map<nat, Info>)
    requires NoLostWakeup(status, info) && info'.Keys == info.Keys
    requires forall u :: u in info ==> info'[u].waiting == info[u].waiting
    ensures NoLostWakeup(status, info')
  {
  }

  lemma AdoptRecord(info: map<nat, Info>, info': map<nat, Info>, dead: set<nat>, nextTid: nat, exits: map<nat, int>,
                    waited: seq<(nat, int)>, freed: seq<nat>)
    requires RecordInv(info, dead, nextTid, exits, waited, freed) && info'.Keys == info.Keys
    requires forall u :: u in info ==> info'[u].exitStatus == info[u].exitStatus
    ensures RecordInv(info', dead, nextTid, exits, waited, freed)
  {
  }

  lemma UserNotIdle(s: State)
    requires Basic(s) && s.info[s.current].user
    ensures s.current in s.status && s.current in s.info && s.current != IDLE && s.current != BOOT && BOOT in s.info
  {
  }

  lemma ExitKeeps(s: State, code: int)
    requires Inv(s) && s.info[s.current].user && s.info[s.current].waiting.None? && s.current != BOOT
    requires s.status[s.current] == Running
    ensures s.info[s.current].parent.Some? && s.info[s.current].parent.value in s.status
    ensures Inv(Exit(s, code)) && Exit(s, code).exits == s.exits[s.current := code]
  {
    hide QueueInv, ProcessInv, RecordInv, NoLostWakeup, AdoptAll, Adopted;
    UserNotIdle(s);
    var s1 := s.(info := AdoptAll(s.info, s.current));
    ExitAdopts(s);
    AliveNotReaped(s1, s.current);
    DieWakeKeeps(s1, s.current, code);
    assert Exit(s, code) == WakeParent(Die(s1, s.current, code), s.current);
  }

  /** A new thread t under p. */
  function WithChild(info: map<nat, Info>, p: nat, t: nat, user: bool): map<nat, Info>
    requires p in info
  {
    info[p := info[p].(children := info[p].children + [t])][t := Info(Some(p), [], 0, user, user, None)]
  }

  /** thread_create, thread_spawn_user and the linkage of sys_fork. */
  function AddThread(s: State, user: bool): State
    requires s.current in s.info
  {
    var t := s.nextTid;
    s.(status := s.status[t := Ready],
       info := WithChild(s.info, s.current, t, user),
       runq := s.runq + [t], nextTid := t + 1)
  }

  lemma AddTree(info: map<nat, Info>, zombies: seq<nat>, t: nat, p: nat, x: Info)
    requires TreeInv(info, zombies, t) && p in info && p !in zombies && t !in zombies && x.parent == Some(p) &&
             x.children == []
    ensures TreeInv(info[p := info[p].(children := info[p].children + [t])][t := x], zombies, t + 1)
  {
    var info' := info[p := info[p].(children := info[p].children + [t])][t := x];
    assert ChildrenOk(info, zombies, p);
    assert t !in info[p].children;
    AppendMembers(info[p].children, t);
    forall u | u in info' ensures u < t + 1 && ChildrenOk(info', zombies, u) {
      assert u in info ==> ChildrenOk(info, zombies, u);
    }
    forall u | u in info' && u !in zombies && u != BOOT ensures ListedByParent(info', u) {
      assert u in info ==> ListedByParent(info, u);
    }
  }

  lemma AddRest(info: map<nat, Info>, dead: set<nat>, zombies: seq<nat>, t: nat, p: nat, user: bool)
    requires DeadInv(info, dead, zombies) && WaitInv(info) && p in info && p !in dead && t !in info &&
             (info[p].user ==> user)
    requires t != BOOT && t != IDLE && forall u :: u in info ==> t !in info[u].children
    ensures var info' := WithChild(info, p, t, user);
            DeadInv(info', dead, zombies) && WaitInv(info')
  {
    var info' := WithChild(info, p, t, user);
    assert forall c :: c in info'[p].children <==> c in info[p].children || c == t;
  }

  lemma AddQueue(s: State, user: bool)
    requires QueueInv(s.status, s.runq, s.current) && s.nextTid !in s.status && s.current in s.info
    ensures var s' := AddThread(s, user);
            QueueInv(s'.status, s'.runq, s'.current) && Dead(s'.status) == Dead(s.status)
  {
    AppendMembers(s.runq, s.nextTid);
  }

  lemma AddProcess(info: map<nat, Info>, dead: set<nat>, zombies: seq<nat>, t: nat, p: nat, user: bool)
    requires ProcessInv(info, dead, zombies, t) && p in info && p !in dead && (info[p].user ==> user)
    ensures t !in info
    ensures ProcessInv(WithChild(info, p, t, user), dead, zombies, t + 1)
  {
    forall u | u in info ensures t !in info[u].children {
      assert ChildrenOk(info, zombies, u);
    }
    AddTree(info, zombies, t, p, Info(Some(p), [], 0, user, user, None));
    AddRest(info, dead, zombies, t, p, user);
  }

  lemma AddThreadKeeps(s: State, user: bool)
    requires Inv(s) && s.status[s.current] == Running && (s.info[s.current].user ==> user)
    ensures Inv(AddThread(s, user))
    ensures s.nextTid !in s.info
  {
    AliveNotReaped(s, s.current);
    AddProcess(s.info, Dead(s.status), s.zombies, s.nextTid, s.current, user);
    AddQueue(s, user);
    AddRecord(s, user);
    AddNoLost(s, user);
    AddAssembled(s, user);
  }

  lemma AddAssembled(s: State, user: bool)
    requires s.status.Keys == s.info.Keys && s.current in s.info
    requires var s' := AddThread(s, user);
             && QueueInv(s'.status, s'.runq, s'.current) && Dead(s'.status) == Dead(s.status)
             && ProcessInv(s'.info, Dead(s.status), s.zombies, s'.nextTid)
             && RecordInv(s'.info, Dead(s.status), s'.nextTid, s.exits, s.waited, s.freed)
             && NoLostWakeup(s'.status, s'.info)
    ensures Inv(AddThread(s, user))
  {
  }

  lemma AddNoLost(s: State, user: bool)
    requires NoLostWakeup(s.status, s.info) && s.current in s.info && s.nextTid !in s.info
    requires Dead(AddThread(s, user).status) == Dead(s.status)
    ensures NoLostWakeup(AddThread(s, user).status, AddThread(s, user).info)
  {
  }

  lemma AddRecord(s: State, user: bool)
    requires RecordInv(s.info, Dead(s.status), s.nextTid, s.exits, s.waited, s.freed)
    requires s.current in s.info && s.nextTid !in s.info && s.nextTid !in Dead(s.status)
    ensures var s' := AddThread(s, user);
            RecordInv(s'.info, Dead(s.status), s'.nextTid, s.exits, s.waited, s.freed)
  {
  }

  // ---- waiting for a child ----

  /** The search of sys_waitpid: settle on the child with that pid, if any. The shell settles on what it spawned. */
  function WaitBegin(s: State, pid: nat): State
    requires s.current in s.info
  {
    if UserChild(s.info, s.current, pid)
    then s.(info := s.info[s.current := s.info[s.current].(waiting := Some(pid))]) else s
  }

  lemma WaitBeginKeeps(s: State, pid: nat)
    requires Inv(s) && s.status[s.current] == Running && s.current != IDLE
    ensures Inv(WaitBegin(s, pid))
  {
    if UserChild(s.info, s.current, pid) {
      var x := s.info[s.current].(waiting := Some(pid));
      SetWaiting(s.info, Dead(s.status), s.zombies, s.nextTid, s.current, Some(pid));
      SameStatusRecord(s.info, Dead(s.status), s.nextTid, s.exits, s.waited, s.freed, s.current, x);
      RunnerNoLost(s.status, s.info, s.current, x);
    }
  }

  lemma RunnerNoLost(status: map<nat, Status>, info: map<nat, Info>, t: nat, x: Info)
    requires NoLostWakeup(status, info) && t in status && status[t] != Blocked
    ensures NoLostWakeup(status, info[t := x])
  {
  }

  lemma SetWaiting(info: map<nat, Info>, dead: set<nat>, zombies: seq<nat>, nextTid: nat, t: nat, w: Option<nat>)
    requires ProcessInv(info, dead, zombies, nextTid) && t in info && t != IDLE &&
             (w.Some? ==> UserChild(info, t, w.value))
    ensures ProcessInv(info[t := info[t].(waiting := w)], dead, zombies, nextTid)
  {
    SameLinksTree(info, zombies, nextTid, t, info[t].(waiting := w));
    SetWaitingRest(info, dead, zombies, t, w);
  }

  lemma SetWaitingRest(info: map<nat, Info>, dead: set<nat>, zombies: seq<nat>, t: nat, w: Option<nat>)
    requires DeadInv(info, dead, zombies) && WaitInv(info)
    requires t in info && t != IDLE && (w.Some? ==> UserChild(info, t, w.value))
    ensures DeadInv(info[t := info[t].(waiting := w)], dead, zombies) && WaitInv(info[t := info[t].(waiting := w)])
  {
  }

  /** The wait is over and the status of c reported. */
  function Reported(s: State, c: nat): State
    requires s.current in s.info && c in s.info
  {
    s.(info := s.info[s.current := s.info[s.current].(waiting := None)],
       waited := s.waited + [(c, s.info[c].exitStatus)])
  }

  /** The end of sys_waitpid: report the child's status and hand the child to the reaper. */
  function Collect(s: State): State
    requires s.current in s.info && s.info[s.current].waiting.Some? && s.info[s.current].waiting.value in s.info
    requires s.info[s.current].waiting.value != s.current &&
             s.info[s.info[s.current].waiting.value].parent == Some(s.current)
  {
    var c := s.info[s.current].waiting.value;
    Detach(Reported(s, c), c)
  }

  /** The child a waitpid has settled on is linked to the waiting thread. */
  lemma WaitedChild(s: State)
    requires Basic(s) && s.info[s.current].waiting.Some?
    ensures var c := s.info[s.current].waiting.value;
            c in s.info && c in s.status && c != s.current && s.info[c].parent == Some(s.current) && c !in s.zombies
  {
    assert ChildrenOk(s.info, s.zombies, s.current);
  }

  lemma CollectClears(s: State)
    requires Inv(s) && s.status[s.current] == Running && s.info[s.current].waiting.Some?
    requires s.info[s.current].waiting.value in Dead(s.status)
    ensures var c := s.info[s.current].waiting.value;
            c in s.info && Inv(Reported(s, c))
  {
    WaitedChild(s);
    var c := s.info[s.current].waiting.value;
    var x := s.info[s.current].(waiting := None);
    SetWaiting(s.info, Dead(s.status), s.zombies, s.nextTid, s.current, None);
    CollectRecord(s.info, Dead(s.status), s.nextTid, s.exits, s.waited, s.freed, s.current, x, c);
  }

  lemma CollectRecord(info: map<nat, Info>, dead: set<nat>, nextTid: nat, exits: map<nat, int>, waited: seq<(nat, int)>,
                      freed: seq<nat>, t: nat, x: Info, c: nat)
    requires RecordInv(info, dead, nextTid, exits, waited, freed) && t in info && x.exitStatus == info[t].exitStatus
    requires c in dead && c in info
    ensures RecordInv(info[t := x], dead, nextTid, exits, waited + [(c, info[c].exitStatus)], freed)
  {
  }

  /** The status reported is the one the child died with; a childless child leaves a good state. */
  lemma CollectKeeps(s: State)
    requires Inv(s) && s.status[s.current] == Running && s.info[s.current].waiting.Some?
    requires s.info[s.current].waiting.value in Dead(s.status) && Childless(s, s.info[s.current].waiting.value)
    ensures var c := s.info[s.current].waiting.value;
            && c in s.info && c != s.current && s.info[c].parent == Some(s.current)
            && Inv(Collect(s))
            && c in s.exits && Collect(s).waited == s.waited + [(c, s.exits[c])]
  {
    WaitedChild(s);
    CollectClears(s);
    var c := s.info[s.current].waiting.value;
    DetachKeeps(Reported(s, c), c);
  }

  predicate Childless(s: State, t: nat) {
    t in s.info ==> s.info[t].children == []
  }

  /** x is in use although its parent is on the reaper's list, about to be freed. */
  predicate Orphaned(s: State, x: nat) {
    Attached(s.info, s.zombies, x) && s.info[x].parent.Some? && s.info[x].parent.value in s.zombies
  }

  lemma NoOrphans(s: State, x: nat)
    requires Inv(s)
    ensures !Orphaned(s, x)
  {
    if Attached(s.info, s.zombies, x) && x != BOOT {
      assert ListedByParent(s.info, x);
    }
  }

  /**
   * Collecting a dead child keeps the invariant exactly if the child has no children. Only sys_exit moves
   * them away, so a process that was stopped or killed may have some; collecting it orphans each of them.
   */
  lemma CollectIff(s: State)
    requires Inv(s) && s.status[s.current] == Running && s.info[s.current].waiting.Some?
    requires s.info[s.current].waiting.value in Dead(s.status)
    ensures var c := s.info[s.current].waiting.value;
            && c in s.info && c != s.current && s.info[c].parent == Some(s.current)
            && (Inv(Collect(s)) <==> s.info[c].children == [])
            && (forall x :: Orphaned(Collect(s), x) <==> x in s.info[c].children)
  {
    hide RecordInv, NoLostWakeup, WaitInv, Remove;
    WaitedChild(s);
    var c := s.info[s.current].waiting.value;
    if s.info[c].children == [] {
      CollectKeeps(s);
    }
    DetachOrphans(s, Collect(s), c);
  }

  /** Handing c to the reaper orphans exactly its children. */
  lemma DetachOrphans(s: State, s': State, c: nat)
    requires Inv(s) && c in s.info && c !in s.zombies && s'.zombies == s.zombies + [c] && s'.info.Keys == s.info.Keys
    requires forall x :: x in s.info ==> s'.info[x].parent == s.info[x].parent
    ensures forall x :: Orphaned(s', x) <==> x in s.info[c].children
  {
    assert ChildrenOk(s.info, s.zombies, c);
    forall x ensures Orphaned(s', x) <==> x in s.info[c].children {
      NoOrphans(s, x);
      if Orphaned(s', x) {
        assert ListedByParent(s.info, x);
      }
    }
  }

  // ---- thread_exit ----

  /** thread_exit up to its call of schedule: no parent is woken. */
  function ThreadExit(s: State): State
    requires s.current in s.status && s.current in s.info
    requires s.info[s.current].parent.Some? && s.info[s.current].parent.value in s.info
  {
    Detach(Die(s, s.current, s.info[s.current].exitStatus), s.current)
  }

  lemma ThreadExitKeeps(s: State)
    requires Inv(s) && s.status[s.current] == Running && !s.info[s.current].user && Mortal(s, s.current)
    requires s.info[s.current].children == []
    ensures s.info[s.current].parent.Some? && s.info[s.current].parent.value in s.info && Inv(ThreadExit(s))
  {
    AliveNotReaped(s, s.current);
    assert ListedByParent(s.info, s.current);
    var s1 := Die(s, s.current, s.info[s.current].exitStatus);
    DieKeeps(s, s.current, s.info[s.current].exitStatus);
    WorkerNotAwaited(s, s.current);
    WorkerDeathNoLost(s, s.current, s.info[s.current].exitStatus);
    DetachKeeps(s1, s.current);
  }

  /** The end of a kernel worker keeps the invariant exactly if it has no children; otherwise it orphans them. */
  lemma ThreadExitIff(s: State)
    requires Inv(s) && s.status[s.current] == Running && !s.info[s.current].user && Mortal(s, s.current)
    ensures HasLiveParent(s, s.current)
    ensures Inv(ThreadExit(s)) <==> s.info[s.current].children == []
    ensures forall x :: Orphaned(ThreadExit(s), x) <==> x in s.info[s.current].children
  {
    hide QueueInv, RecordInv, NoLostWakeup, WaitInv, Remove;
    AliveNotReaped(s, s.current);
    assert ListedByParent(s.info, s.current);
    if s.info[s.current].children == [] {
      ThreadExitKeeps(s);
    }
    DetachOrphans(s, ThreadExit(s), s.current);
  }

  /** Nobody waits for a kernel worker. */
  lemma WorkerNotAwaited(s: State, t: nat)
    requires Basic(s) && t in s.info && !s.info[t].user
    ensures forall u :: u in s.info ==> s.info[u].waiting != Some(t)
  {
  }

  lemma WorkerDeathNoLost(s: State, t: nat, code: int)
    requires NoLostWakeup(s.status, s.info) && t in s.status && t in s.info && s.status.Keys == s.info.Keys
    requires forall u :: u in s.info ==> s.info[u].waiting != Some(t)
    requires Dead(Die(s, t, code).status) == Dead(s.status) + {t}
    ensures NoLostWakeup(Die(s, t, code).status, Die(s, t, code).info)
  {
  }

  // ---- the reaper ----

  /** One turn of kill_zombies. */
  function FreeFirst(s: State): State
    requires s.zombies != []
  {
    var z := s.zombies[0];
    s.(zombies := s.zombies[1..], status := s.status - {z}, info := s.info - {z}, freed := s.freed + [z])
  }

  lemma FreeTree(info: map<nat, Info>, dead: set<nat>, zombies: seq<nat>, nextTid: nat)
    requires ProcessInv(info, dead, zombies, nextTid) && zombies != []
    ensures TreeInv(info - {zombies[0]}, zombies[1..], nextTid)
  {
    var z, info', zombies' := zombies[0], info - {zombies[0]}, zombies[1..];
    assert z in zombies;
    TailMembers(zombies);
    forall u | u in info' ensures u < nextTid && ChildrenOk(info', zombies', u) {
      assert ChildrenOk(info, zombies, u);
    }
    forall u | u in info' && u !in zombies' && u != BOOT ensures ListedByParent(info', u) {
      assert ListedByParent(info, u);
    }
  }

  lemma FreeRest(info: map<nat, Info>, dead: set<nat>, zombies: seq<nat>)
    requires DeadInv(info, dead, zombies) && WaitInv(info) && zombies != [] && zombies[0] != IDLE && NoDup(zombies)
    ensures DeadInv(info - {zombies[0]}, dead - {zombies[0]}, zombies[1..]) && WaitInv(info - {zombies[0]})
  {
    TailMembers(zombies);
  }

  lemma FreeRecord(info: map<nat, Info>, dead: set<nat>, nextTid: nat, exits: map<nat, int>, waited: seq<(nat, int)>,
                   freed: seq<nat>, z: nat)
    requires RecordInv(info, dead, nextTid, exits, waited, freed) && z in info && z < nextTid
    ensures RecordInv(info - {z}, dead - {z}, nextTid, exits, waited, freed + [z])
  {
    AppendMembers(freed, z);
  }

  lemma FreeQueue(status: map<nat, Status>, runq: seq<nat>, current: nat, z: nat)
    requires QueueInv(status, runq, current) && z in status && status[z] == Zombie && z != current
    ensures QueueInv(status - {z}, runq, current) && Dead(status - {z}) == Dead(status) - {z}
  {
  }

  /** The reaper frees only dead threads that are neither current nor queued, and none of them twice. */
  lemma FreeFirstKeeps(s: State)
    requires Inv(s) && s.zombies != [] && s.status[s.current] == Running
    ensures var z := s.zombies[0];
            && z in s.status && s.status[z] == Zombie && z != s.current && z !in s.runq && z !in s.freed
            && Inv(FreeFirst(s))
  {
    var z := s.zombies[0];
    assert z in s.zombies;
    assert z in Dead(s.status);
    FreeTree(s.info, Dead(s.status), s.zombies, s.nextTid);
    FreeRest(s.info, Dead(s.status), s.zombies);
    FreeQueue(s.status, s.runq, s.current, z);
    FreeRecord(s.info, Dead(s.status), s.nextTid, s.exits, s.waited, s.freed, z);
    FreeNoLost(s.status, s.info, z);
  }

  lemma FreeNoLost(status: map<nat, Status>, info: map<nat, Info>, z: nat)
    requires NoLostWakeup(status, info)
    ensures NoLostWakeup(status - {z}, info - {z})
  {
  }

  // ---- whole runs ----

  datatype Op =
    | Spawn(user: bool)     // thread_create, thread_spawn_user, sys_fork
    | Reschedule            // schedule
    | Park                  // thread_block before its call of schedule
    | Wakeup(t: nat)        // thread_wakeup, from another thread or from an interrupt
    | WaitStart(pid: nat)   // sys_waitpid: find the child; the shell's wait for what it spawned
    | WaitTurn              // one turn of their loops, or their end
    | ExitProcess(code: int)
    | ExitWorker            // thread_exit
    | Stop(pid: nat)        // sys_stop, and the shell's stop
    | Terminate             // signal_default_terminate of the current process
    | Reap                  // one turn of kill_zombies

  /** The current thread is running kernel or user code outside a wait loop. */
  predicate Acting(s: State) {
    s.current in s.status && s.status[s.current] == Running && s.current in s.info && s.info[s.current].waiting.None?
  }

  /** pid is found by the search from the bootstrap thread, and still has its image. */
  predicate Stoppable(s: State, pid: nat) {
    Attached(s.info, s.zombies, pid) && s.info[pid].image
  }

  /**
   * s' is what the kernel's operation makes of s, when it can be called in s. A thread handed to the reaper
   * has no children: CollectIff and ThreadExitIff say what happens otherwise.
   */
  ghost predicate Follows(s: State, op: Op, s': State) {
    match op
    case Spawn(user) => Acting(s) && s.current != IDLE && (s.info[s.current].user ==> user) && s' == AddThread(s, user)
    case Reschedule =>
      && s.current in s.status && s.current in s.info &&
         (s.status[s.current] == Running ==> s.info[s.current].waiting.None?)
      && s' == Schedule(s)
    case Park => Acting(s) && s.current != IDLE && s' == Block(s)
    case Wakeup(t) => t in s.status && s' == Wake(s, t)
    case WaitStart(pid) => Acting(s) && s.current != IDLE && s' == WaitBegin(s, pid)
    case WaitTurn =>
      && Waiting(s)
      && var c := s.info[s.current].waiting.value;
         if s.status[c] == Zombie then Childless(s, c) && s' == Collect(s) else s' == Block(s)
    case ExitProcess(code) =>
      Acting(s) && s.info[s.current].user && HasLiveParent(s, s.current) && s' == Exit(s, code)
    case ExitWorker =>
      && Acting(s) && !s.info[s.current].user && Mortal(s, s.current) && HasLiveParent(s, s.current)
      && Childless(s, s.current) && s' == ThreadExit(s)
    case Stop(pid) =>
      && Acting(s)
      && if pid == s.current && s.info[pid].user then HasLiveParent(s, pid) && s' == Exit(s, -1)
         else if Stoppable(s, pid) then HasLiveParent(s, pid) && s' == WakeParent(Die(s, pid, -1), pid)
         else s' == s
    case Terminate =>
      && Acting(s) && s.info[s.current].user && HasLiveParent(s, s.current)
      && s' == WakeParent(Die(s, s.current, -1), s.current)
    case Reap => s.current == IDLE && Acting(s) && s' == if s.zombies == [] then s else FreeFirst(s)
  }

  /** The current thread is in a wait loop, about to look at the child. */
  predicate Waiting(s: State) {
    && s.current in s.status && s.status[s.current] == Running && s.current in s.info && s.info[s.current].waiting.Some?
    && var c := s.info[s.current].waiting.value;
       c in s.info && c in s.status && c != s.current && s.info[c].parent == Some(s.current)
  }

  /** t is not the bootstrap thread and its parent still exists. */
  predicate HasLiveParent(s: State, t: nat) {
    && t != BOOT && BOOT in s.info && t in s.info && t in s.status
    && s.info[t].parent.Some? && s.info[t].parent.value in s.status && s.info[t].parent.value in s.info
  }

  /** The conditions that Follows adds for its operations to be defined hold in every good state. */
  lemma AlwaysDefined(s: State)
    requires Inv(s)
    ensures s.status[s.current] == Running && s.info[s.current].waiting.Some? ==> Waiting(s)
    ensures forall t :: Attached(s.info, s.zombies, t) && t != BOOT ==> HasLiveParent(s, t)
  {
    if s.info[s.current].waiting.Some? {
      WaitedChild(s);
    }
    forall t | Attached(s.info, s.zombies, t) && t != BOOT ensures HasLiveParent(s, t) {
      assert ListedByParent(s.info, t);
    }
  }

  lemma StopKeeps(s: State, pid: nat)
    requires Inv(s) && Stoppable(s, pid) && HasLiveParent(s, pid)
    ensures Inv(WakeParent(Die(s, pid, -1), pid))
  {
    StoppableMortal(s, pid);
    DieWakeKeeps(s, pid, -1);
  }

  lemma StoppableMortal(s: State, pid: nat)
    requires Basic(s) && Stoppable(s, pid)
    ensures Mortal(s, pid)
  {
  }

  lemma TerminateKeeps(s: State)
    requires Inv(s) && Acting(s) && s.info[s.current].user && HasLiveParent(s, s.current)
    ensures Inv(WakeParent(Die(s, s.current, -1), s.current))
  {
    AliveNotReaped(s, s.current);
    assert s.current != IDLE;
    DieWakeKeeps(s, s.current, -1);
  }

  lemma WaitTurnKeeps(s: State)
    requires Inv(s) && Waiting(s)
    requires s.status[s.info[s.current].waiting.value] == Zombie ==> Childless(s, s.info[s.current].waiting.value)
    ensures Inv(if s.status[s.info[s.current].waiting.value] == Zombie then Collect(s) else Block(s))
  {
    if s.status[s.info[s.current].waiting.value] == Zombie {
      CollectKeeps(s);
    } else {
      BlockKeeps(s);
    }
  }

  /** Every kernel step keeps every invariant. */
  lemma StepKeeps(s: State, op: Op, s': State)
    requires Inv(s) && Follows(s, op, s')
    ensures Inv(s')
  {
    hide QueueInv, ProcessInv, RecordInv, NoLostWakeup;
    hide AddThread, Schedule, Wake, Block, WaitBegin, Collect, Exit, ThreadExit, Die, WakeParent, FreeFirst;
    match op
    case Spawn(user) => AddThreadKeeps(s, user);
    case Reschedule => ScheduleKeeps(s);
    case Park => BlockKeeps(s);
    case Wakeup(t) => WakeKeeps(s, t);
    case WaitStart(pid) => WaitBeginKeeps(s, pid);
    case WaitTurn => WaitTurnKeeps(s);
    case ExitProcess(code) => ExitKeeps(s, code);
    case ExitWorker => ThreadExitKeeps(s);
    case Stop(pid) =>
      if pid == s.current && s.info[pid].user {
        ExitKeeps(s, -1);
      } else if Stoppable(s, pid) {
        StopKeeps(s, pid);
      }
    case Terminate => TerminateKeeps(s);
    case Reap => if s.zombies != [] { FreeFirstKeeps(s); }
  }

  /** The state sched_init leaves: the bootstrap thread running, the idle thread ready. */
  function Initial(): State {
    State(map[BOOT := Running, IDLE := Ready],
          map[BOOT := Info(None, [IDLE], 0, false, false, None), IDLE := Info(Some(BOOT), [], 0, false, false, None)],
          [IDLE], [], BOOT, 2, map[], [], [])
  }

  lemma InitialProcess(s: State)
    requires s == Initial()
    ensures ProcessInv(s.info, Dead(s.status), s.zombies, s.nextTid)
  {
    assert Dead(s.status) == {};
    assert ChildrenOk(s.info, s.zombies, BOOT) && ChildrenOk(s.info, s.zombies, IDLE) && ListedByParent(s.info, IDLE);
  }

  lemma InitialInv()
    ensures Inv(Initial())
  {
    hide ProcessInv;
    InitialProcess(Initial());
    assert Dead(Initial().status) == {};
  }

  /** trace[0], ops[0], trace[1], ops[1], .. is a run of the kernel from boot. */
  ghost predicate IsRun(trace: seq<State>, ops: seq<Op>) {
    |trace| == |ops| + 1 && trace[0] == Initial() && forall i: nat :: i < |ops| ==> StepAt(trace, ops, i)
  }

  ghost predicate StepAt(trace: seq<State>, ops: seq<Op>, i: nat)
    requires |trace| == |ops| + 1 && i < |ops|
  {
    Follows(trace[i], ops[i], trace[i + 1])
  }

  lemma RunStart(s: State)
    requires s == Initial()
    ensures Inv(s)
  {
    InitialInv();
  }

  /** The invariants hold at every point of every run. */
  lemma {:induction false} RunKeeps(trace: seq<State>, ops: seq<Op>, n: nat)
    requires IsRun(trace, ops) && n < |trace|
    ensures Inv(trace[n])
  {
    if n == 0 {
      RunStart(trace[0]);
    } else {
      RunKeeps(trace, ops, n - 1);
      assert StepAt(trace, ops, n - 1);
      StepKeeps(trace[n - 1], ops[n - 1], trace[n]);
    }
  }

  // ---- what the operations do, field by field ----

  /** The parent of t is woken if it is BLOCKED, and t no longer queued. */
  ghost predicate Notified(s: State, t: nat, s': State)
    requires t in s.status && t in s.info && s.info[t].parent.Some? && s.info[t].parent.value in s.status
  {
    var p := s.info[t].parent.value;
    var line := if s.status[t] == Ready then Remove(s.runq, t) else s.runq;
    if s.status[p] == Blocked then s'.status == s.status[t := Zombie][p := Ready] && s'.runq == line + [p]
    else s'.status == s.status[t := Zombie] && s'.runq == line
  }

  /** t has died with that status, its image is gone, and its parent is woken. */
  ghost predicate DiedInto(s: State, t: nat, code: int, s': State)
    requires HasLiveParent(s, t)
  {
    && Notified(s, t, s') && s'.exits == s.exits[t := code]
    && s'.info == s.info[t := s.info[t].(exitStatus := code, image := false)]
    && s'.zombies == s.zombies && s'.current == s.current && s'.nextTid == s.nextTid
    && s'.waited == s.waited && s'.freed == s.freed
  }

  /** The current process has died with that status, and its children are the bootstrap thread's. */
  ghost predicate ExitedInto(s: State, code: int, s': State)
    requires HasLiveParent(s, s.current)
  {
    var t := s.current;
    && Notified(s, t, s') && s'.exits == s.exits[t := code] && s'.info.Keys == s.info.Keys
    && s'.info[t] == s.info[t].(children := [], exitStatus := code, image := false)
    && s'.info[BOOT] == s.info[BOOT].(children := s.info[BOOT].children + s.info[t].children)
    && (forall u :: u in s.info && u != t && u != BOOT ==>
          s'.info[u] == if u in s.info[t].children then s.info[u].(parent := Some(BOOT)) else s.info[u])
    && s'.zombies == s.zombies && s'.current == t && s'.nextTid == s.nextTid
    && s'.waited == s.waited && s'.freed == s.freed
  }

  /** Parents are older than their children. */
  lemma ParentElse(s: State)
    requires Inv(s) && HasLiveParent(s, s.current) && s.status[s.current] != Zombie
    ensures s.info[s.current].parent.value != s.current
  {
    ParentOlder(s, s.current);
  }

  lemma ParentOlder(s: State, t: nat)
    requires Inv(s) && HasLiveParent(s, t) && Attached(s.info, s.zombies, t)
    ensures s.info[t].parent.value < t
  {
    assert ListedByParent(s.info, t);
    assert ChildrenOk(s.info, s.zombies, s.info[t].parent.value);
  }

  /** sys_stop, and the default action of a signal. */
  lemma DeathMeans(s: State, t: nat, code: int)
    requires Inv(s) && HasLiveParent(s, t) && Attached(s.info, s.zombies, t)
    ensures DiedInto(s, t, code, WakeParent(Die(s, t, code), t))
  {
    hide Inv;
    ParentOlder(s, t);
  }

  /** A process killed by a default action is reported with -1. */
  lemma TerminateMeans(s: State, s': State)
    requires Inv(s) && Follows(s, Terminate, s')
    ensures DiedInto(s, s.current, -1, s')
  {
    AliveNotReaped(s, s.current);
    DeathMeans(s, s.current, -1);
  }

  lemma ExitMeans(s: State, code: int)
    requires Inv(s) && s.info[s.current].user && HasLiveParent(s, s.current) && s.status[s.current] == Running
    ensures ExitedInto(s, code, Exit(s, code))
  {
    hide QueueInv, RecordInv, NoLostWakeup, WaitInv;
    AliveNotReaped(s, s.current);
    ParentOlder(s, s.current);
    ChildrenDisjoint(s.info, s.zombies, s.nextTid, s.current, BOOT);
    var cs := s.info[s.current].children;
    assert cs[..|cs|] == cs && cs[|cs|..] == [];
  }

  // ---- a run into an orphan ----

  /** The shell spawns process 2, which forks process 3 and is then stopped from the shell. */
  function OrphanOps(): seq<Op> {
    BirthOps(true) + [Spawn(true), Reschedule, Stop(2), WaitStart(2)]
  }

  /** The shell creates thread 2, which then runs. */
  function BirthOps(user: bool): seq<Op> {
    [Spawn(user), Reschedule, Reschedule]
  }

  ghost predicate Born(s: State, user: bool) {
    && Acting(s) && s.current == 2 && s.runq == [BOOT, IDLE] && s.zombies == [] && s.nextTid == 3
    && s.status == map[BOOT := Ready, IDLE := Ready, 2 := Running]
    && s.info == map[BOOT := Info(None, [IDLE, 2], 0, false, false, None),
                     IDLE := Info(Some(BOOT), [], 0, false, false, None),
                     2 := Info(Some(BOOT), [], 0, user, user, None)]
  }

  lemma BirthSteps(user: bool) returns (s1: State, s2: State, s3: State)
    ensures Follows(Initial(), Spawn(user), s1) && Follows(s1, Reschedule, s2) && Follows(s2, Reschedule, s3)
    ensures Born(s3, user)
  {
    s1 := AddThread(Initial(), user);
    assert s1.runq == [IDLE, 2];
    assert Requeue(s1).runq == [IDLE, 2, BOOT];
    s2 := Schedule(s1);
    assert s2.current == IDLE && s2.runq == [2, BOOT] && Requeue(s2).runq == [2, BOOT, IDLE];
    s3 := Schedule(s2);
    assert s3.runq == [BOOT, IDLE];
  }

  lemma BirthRun(user: bool) returns (trace: seq<State>)
    ensures IsRun(trace, BirthOps(user)) && Born(trace[3], user)
  {
    hide Follows, Born, Initial;
    var s1, s2, s3 := BirthSteps(user);
    var s0 := Initial();
    Extended([s0], [], Spawn(user), s1);
    Extended([s0, s1], [Spawn(user)], Reschedule, s2);
    Extended([s0, s1, s2], [Spawn(user), Reschedule], Reschedule, s3);
    trace := [s0, s1, s2, s3];
  }

  /** A run from boot to a point where a kernel worker with a child is about to end, which orphans the child. */
  lemma WorkerOrphanRun() returns (trace: seq<State>)
    ensures IsRun(trace, BirthOps(false) + [Spawn(false)])
    ensures var s := trace[4];
            && Acting(s) && s.current == 2 && !s.info[2].user && HasLiveParent(s, 2) && s.info[2].children == [3]
            && !Inv(ThreadExit(s)) && Orphaned(ThreadExit(s), 3)
  {
    var front := BirthRun(false);
    var s3 := front[3];
    var s4 := AddThread(s3, false);
    assert s4.info[2].children == [3];
    trace := front + [s4];
    var ops := BirthOps(false) + [Spawn(false)];
    assert Follows(s3, Spawn(false), s4);
    Extended(front, BirthOps(false), Spawn(false), s4);
    RunKeeps(trace, ops, 4);
    hide Inv, Follows, Orphaned;
    ThreadExitIff(s4);
  }

  lemma Extended(trace: seq<State>, ops: seq<Op>, op: Op, s: State)
    requires IsRun(trace, ops) && Follows(trace[|ops|], op, s)
    ensures IsRun(trace + [s], ops + [op])
  {
    hide Follows;
    var trace', ops' := trace + [s], ops + [op];
    forall i: nat | i < |ops'| ensures StepAt(trace', ops', i) {
      assert i < |ops| ==> StepAt(trace, ops, i);
    }
  }

  /** A run from boot to a point where the shell is about to collect a dead process that has a child. */
  lemma OrphanRun() returns (trace: seq<State>)
    ensures IsRun(trace, OrphanOps())
    ensures var s := trace[7];
            && Waiting(s) && s.info[s.current].waiting == Some(2) && s.status[2] == Zombie && s.info[2].children == [3]
  {
    hide Follows, Born, Waiting;
    var front := BirthRun(true);
    var s4, s5, s6, s7 := OrphanStopped(front[3]);
    var ops := BirthOps(true);
    Extended(front, ops, Spawn(true), s4);
    var t4, o4 := front + [s4], ops + [Spawn(true)];
    Extended(t4, o4, Reschedule, s5);
    var t5, o5 := t4 + [s5], o4 + [Reschedule];
    Extended(t5, o5, Stop(2), s6);
    var t6, o6 := t5 + [s6], o5 + [Stop(2)];
    Extended(t6, o6, WaitStart(2), s7);
    trace := t6 + [s7];
    assert o6 + [WaitStart(2)] == OrphanOps();
  }

  lemma OrphanStopped(s3: State) returns (s4: State, s5: State, s6: State, s7: State)
    requires Born(s3, true)
    ensures Follows(s3, Spawn(true), s4) && Follows(s4, Reschedule, s5)
    ensures Follows(s5, Stop(2), s6) && Follows(s6, WaitStart(2), s7)
    ensures Waiting(s7) && s7.info[s7.current].waiting == Some(2) && s7.status[2] == Zombie &&
            s7.info[2].children == [3]
  {
    s4 := AddThread(s3, true);
    assert s4.runq == [BOOT, IDLE, 3] && Requeue(s4).runq == [BOOT, IDLE, 3, 2];
    s5 := Schedule(s4);
    assert s5.current == BOOT && s5.status[2] == Ready && s5.info[2].children == [3];
    s6 := WakeParent(Die(s5, 2, -1), 2);
    s7 := WaitBegin(s6, 2);
  }

  /** The record only grows: a status once recorded never changes. */
  ghost predicate RecordGrows(s: State, s': State) {
    && (forall t :: t in s.exits ==> t in s'.exits && s'.exits[t] == s.exits[t])
    && s.waited <= s'.waited && s.freed <= s'.freed
  }

  /** The living have no recorded status, and the dead no image. */
  ghost predicate DeathsFinal(s: State) {
    && (forall t :: t in s.exits && t in s.status ==> s.status[t] == Zombie)
    && (forall t :: t in s.info && t in s.status && s.info[t].image ==> s.status[t] != Zombie)
  }

  lemma InvDeathsFinal(s: State)
    requires Inv(s)
    ensures DeathsFinal(s)
  {
  }

  lemma DieRecords(s: State, t: nat, code: int)
    requires HasLiveParent(s, t) && t !in s.exits
    ensures RecordGrows(s, WakeParent(Die(s, t, code), t)) && RecordGrows(s, Detach(Die(s, t, code), t))
  {
  }

  lemma ExitRecords(s: State, code: int)
    requires HasLiveParent(s, s.current) && s.current !in s.exits
    ensures RecordGrows(s, Exit(s, code))
  {
    DieRecords(s.(info := AdoptAll(s.info, s.current)), s.current, code);
  }

  lemma SameRecord(s: State, s': State)
    requires s'.exits == s.exits && s'.waited == s.waited && s'.freed == s.freed
    ensures RecordGrows(s, s')
  {
  }

  lemma MoveRecords(s: State)
    requires s.current in s.status
    ensures RecordGrows(s, Schedule(s)) && RecordGrows(s, Block(s))
  {
    SameRecord(s, Schedule(s));
    SameRecord(s, Block(s));
  }

  lemma StepRecord(s: State, op: Op, s': State)
    requires DeathsFinal(s) && Follows(s, op, s')
    ensures RecordGrows(s, s')
  {
    hide Schedule, Requeue, Wake, Block, Exit, WakeParent, Die, ThreadExit;
    match op
    case Reschedule => MoveRecords(s);
    case Wakeup(t) => MoveRecord(s, t);
    case Park => MoveRecords(s);
    case WaitTurn => TurnRecords(s);
    case ExitProcess(code) => ExitRecords(s, code);
    case ExitWorker => WorkerRecords(s);
    case Terminate => DieRecords(s, s.current, -1);
    case Stop(pid) =>
      if pid == s.current && s.info[pid].user {
        ExitRecords(s, -1);
      } else if Stoppable(s, pid) {
        DieRecords(s, pid, -1);
      }
    case _ =>
  }

  lemma MoveRecord(s: State, t: nat)
    requires t in s.status
    ensures RecordGrows(s, Wake(s, t))
  {
    SameRecord(s, Wake(s, t));
  }

  lemma TurnRecords(s: State)
    requires Waiting(s)
    ensures RecordGrows(s, Collect(s)) && RecordGrows(s, Block(s))
  {
  }

  lemma WorkerRecords(s: State)
    requires HasLiveParent(s, s.current) && s.current !in s.exits
    ensures RecordGrows(s, ThreadExit(s))
  {
    DieRecords(s, s.current, s.info[s.current].exitStatus);
  }

  lemma RunRecord(trace: seq<State>, ops: seq<Op>, n: nat)
    requires IsRun(trace, ops) && n < |ops|
    ensures RecordGrows(trace[n], trace[n + 1])
  {
    RunKeeps(trace, ops, n);
    InvDeathsFinal(trace[n]);
    assert StepAt(trace, ops, n);
    StepRecord(trace[n], ops[n], trace[n + 1]);
  }

  lemma RunResult(trace: seq<State>, ops: seq<Op>, n: nat, i: nat)
    requires IsRun(trace, ops) && n < |trace| && i < |trace[n].waited|
    ensures trace[n].waited[i].0 in trace[n].exits && trace[n].exits[trace[n].waited[i].0] == trace[n].waited[i].1
  {
    RunKeeps(trace, ops, n);
  }

  /**
   * waitpid over whole runs: a result recorded at any point is the status recorded when that child
   * died, and stays so at every later point.
   */
  lemma {:induction false} WaitResults(trace: seq<State>, ops: seq<Op>, m: nat, n: nat, i: nat)
    requires IsRun(trace, ops) && m <= n < |trace| && i < |trace[m].waited|
    ensures RecordGrows(trace[m], trace[n])
    ensures var r := trace[m].waited[i]; r.0 in trace[n].exits && trace[n].exits[r.0] == r.1
    decreases n
  {
    if m < n {
      WaitResults(trace, ops, m, n - 1, i);
      RunRecord(trace, ops, n - 1);
    } else {
      RunResult(trace, ops, m, i);
    }
  }

  // ---- waitpid answers for the pid it was asked for ----

  /** Thread t has died, or its wait is settled on pid. */
  predicate WaitsFor(s: State, t: nat, pid: nat) {
    t in s.exits || (t in s.info && s.info[t].waiting == Some(pid))
  }

  /** The step is the end of a wait of thread t. */
  predicate Answers(s: State, s': State, t: nat) {
    s.current == t && s'.waited != s.waited
  }

  lemma WaitStays(s: State, op: Op, s': State, t: nat, pid: nat)
    requires Inv(s) && Follows(s, op, s') && WaitsFor(s, t, pid) && !Answers(s, s', t)
    ensures WaitsFor(s', t, pid)
  {
    StepRecord(s, op, s');
    if t !in s.exits {
      WaitStaysAlive(s, op, s', t, pid);
    }
  }

  lemma SameThreads(s: State)
    requires Inv(s)
    ensures s.status.Keys == s.info.Keys && s.current in s.status
  {
  }

  lemma WaitStaysAlive(s: State, op: Op, s': State, t: nat, pid: nat)
    requires Inv(s) && Follows(s, op, s') && t !in s.exits && WaitsFor(s, t, pid) && !Answers(s, s', t)
    ensures WaitsFor(s', t, pid)
  {
    hide Schedule, Wake, Block, AddThread, WaitBegin, Collect, Exit, ThreadExit, Die, WakeParent, FreeFirst;
    hide Answers, Inv;
    SameThreads(s);
    match op
    case Spawn(user) => SpawnStays(s, user, t, pid);
    case Reschedule => MoveStays(s, s.current, t, pid);
    case Park => MoveStays(s, s.current, t, pid);
    case Wakeup(x) => MoveStays(s, x, t, pid);
    case WaitStart(x) => BeginStays(s, x, t, pid);
    case WaitTurn => TurnStays(s, s', t, pid);
    case ExitProcess(code) => ExitStays(s, code, t, pid);
    case ExitWorker => WorkerStays(s, t, pid);
    case Stop(victim) =>
      if victim == s.current && s.info[victim].user {
        ExitStays(s, -1, t, pid);
      } else if Stoppable(s, victim) {
        DeathStays(s, victim, t, pid);
      }
    case Terminate => DeathStays(s, s.current, t, pid);
    case Reap => ReapStays(s, s', t, pid);
  }

  lemma SpawnStays(s: State, user: bool, t: nat, pid: nat)
    requires Inv(s) && Acting(s) && t in s.info && s.info[t].waiting == Some(pid)
    ensures WaitsFor(AddThread(s, user), t, pid)
  {
    hide QueueInv, RecordInv, NoLostWakeup;
  }

  lemma MoveStays(s: State, x: nat, t: nat, pid: nat)
    requires s.current in s.status && x in s.status && t in s.info && s.info[t].waiting == Some(pid)
    ensures WaitsFor(Schedule(s), t, pid) && WaitsFor(Block(s), t, pid) && WaitsFor(Wake(s, x), t, pid)
  {
  }

  lemma BeginStays(s: State, x: nat, t: nat, pid: nat)
    requires Acting(s) && t in s.info && s.info[t].waiting == Some(pid)
    ensures WaitsFor(WaitBegin(s, x), t, pid)
  {
  }

  lemma WorkerStays(s: State, t: nat, pid: nat)
    requires Acting(s) && HasLiveParent(s, s.current) && t in s.info && s.info[t].waiting == Some(pid)
    ensures WaitsFor(ThreadExit(s), t, pid)
  {
    hide Remove;
  }

  lemma DeathStays(s: State, victim: nat, t: nat, pid: nat)
    requires HasLiveParent(s, victim) && t in s.info && s.info[t].waiting == Some(pid)
    ensures WaitsFor(WakeParent(Die(s, victim, -1), victim), t, pid)
  {
    hide Remove;
  }

  lemma TurnStays(s: State, s': State, t: nat, pid: nat)
    requires Inv(s) && Follows(s, WaitTurn, s') && t in s.info && s.info[t].waiting == Some(pid) && !Answers(s, s', t)
    ensures WaitsFor(s', t, pid)
  {
    hide Inv;
  }

  lemma ExitStays(s: State, code: int, t: nat, pid: nat)
    requires Acting(s) && s.info[s.current].user && HasLiveParent(s, s.current)
    requires t in s.info && s.info[t].waiting == Some(pid)
    ensures WaitsFor(Exit(s, code), t, pid)
  {
    hide AdoptAll;
    AdoptFacts(s.info, s.current);
  }

  lemma ReapStays(s: State, s': State, t: nat, pid: nat)
    requires Inv(s) && Follows(s, Reap, s') && t in s.info && s.info[t].waiting == Some(pid) && t !in s.exits
    ensures WaitsFor(s', t, pid)
  {
    if s.zombies != [] {
      assert s.zombies[0] in s.zombies;
    }
  }

  lemma WaitBegins(s: State, pid: nat, s': State)
    requires Follows(s, WaitStart(pid), s') && s.current in s.info && UserChild(s.info, s.current, pid)
    ensures WaitsFor(s', s.current, pid)
  {
  }

  lemma {:induction false} WaitGoesOn(trace: seq<State>, ops: seq<Op>, n: nat, m: nat, pid: nat)
    requires IsRun(trace, ops) && n < m <= |ops| && ops[n] == WaitStart(pid)
    requires trace[n].current in trace[n].info && UserChild(trace[n].info, trace[n].current, pid)
    requires forall i: nat :: n < i < m ==> !Answers(trace[i], trace[i + 1], trace[n].current)
    ensures WaitsFor(trace[m], trace[n].current, pid)
    decreases m
  {
    hide Inv, Follows, WaitsFor, Answers;
    RunKeeps(trace, ops, m - 1);
    assert StepAt(trace, ops, m - 1);
    if m - 1 == n {
      WaitBegins(trace[n], pid, trace[m]);
    } else {
      WaitGoesOn(trace, ops, n, m - 1, pid);
      WaitStays(trace[m - 1], ops[m - 1], trace[m], trace[n].current, pid);
    }
  }

  /**
   * Over every run: the first result that a thread gets after it began to wait for its child pid is that
   * of pid, with the status pid died with.
   */
  lemma WaitAnswers(trace: seq<State>, ops: seq<Op>, n: nat, m: nat, pid: nat)
    requires IsRun(trace, ops) && n < m < |ops| && ops[n] == WaitStart(pid)
    requires trace[n].current in trace[n].info && UserChild(trace[n].info, trace[n].current, pid)
    requires forall i: nat :: n < i < m ==> !Answers(trace[i], trace[i + 1], trace[n].current)
    requires Answers(trace[m], trace[m + 1], trace[n].current)
    ensures pid in trace[m].exits && trace[m + 1].waited == trace[m].waited + [(pid, trace[m].exits[pid])]
  {
    var s, t := trace[m], trace[n].current;
    WaitGoesOn(trace, ops, n, m, pid);
    RunKeeps(trace, ops, m);
    assert StepAt(trace, ops, m);
    OnlyTurnsAnswer(s, ops[m], trace[m + 1]);
    NotDead(s, t);
    CollectKeeps(s);
  }

  lemma OnlyTurnsAnswer(s: State, op: Op, s': State)
    requires Inv(s) && Follows(s, op, s') && s'.waited != s.waited
    ensures Waiting(s) && s.status[s.current] == Running && s.status[s.info[s.current].waiting.value] == Zombie
    ensures Childless(s, s.info[s.current].waiting.value) && s' == Collect(s)
  {
    hide Inv, AdoptAll, Remove;
  }

  lemma NotDead(s: State, t: nat)
    requires Inv(s) && t in s.status && s.status[t] == Running
    ensures t !in s.exits
  {
    InvDeathsFinal(s);
  }

  // ---- bounded waiting ----

  function Schedules(ops: seq<Op>): nat {
    if ops == [] then 0 else (if ops[0].Reschedule? then 1 else 0) + Schedules(ops[1..])
  }

  lemma {:induction false} RemovePlace(s: seq<nat>, x: nat, k: nat) returns (k': nat)
    requires k < |s| && s[k] != x
    ensures k' <= k && k' < |Remove(s, x)| && Remove(s, x)[k'] == s[k]
  {
    if s[0] == x {
      k' := k - 1;
    } else if k == 0 {
      k' := 0;
    } else {
      k' := RemovePlace(s[1..], x, k - 1);
      k' := k' + 1;
    }
  }

  predicate Dispatched(op: Op, s': State, t: nat) {
    op.Reschedule? && s'.current == t && t in s'.status && s'.status[t] == Running
  }

  /** After a step, t is dead, or has been dispatched, or is no further back; schedule moves it up. */
  ghost predicate MovedUp(op: Op, s': State, t: nat, k: nat, k': nat) {
    || t in s'.exits
    || Dispatched(op, s', t)
    || (k' < |s'.runq| && s'.runq[k'] == t && k' <= k && (op.Reschedule? ==> k' < k))
  }

  lemma PlaceAfterStep(s: State, op: Op, s': State, k: nat) returns (k': nat)
    requires QueueInv(s.status, s.runq, s.current) && Follows(s, op, s') && k < |s.runq|
    ensures MovedUp(op, s', s.runq[k], k, k')
  {
    k' := k;
    if op.Reschedule? {
      ScheduleDispatches(s);
      k' := if k > 0 then k - 1 else 0;
    } else if op.Stop? && op.pid != s.current && Stoppable(s, op.pid) {
      k' := PlaceAfterStop(s, op.pid, k);
    } else {
      QueueGrows(s, op, s');
    }
  }

  /** Only schedule and a stop of another process take threads off the run queue. */
  lemma QueueGrows(s: State, op: Op, s': State)
    requires Follows(s, op, s') && !op.Reschedule? && !(op.Stop? && op.pid != s.current && Stoppable(s, op.pid))
    ensures s.runq <= s'.runq
  {
    hide Remove, AdoptAll, Adopted, Attached;
  }

  lemma PlaceAfterStop(s: State, pid: nat, k: nat) returns (k': nat)
    requires k < |s.runq| && HasLiveParent(s, pid)
    ensures MovedUp(Stop(pid), WakeParent(Die(s, pid, -1), pid), s.runq[k], k, k')
  {
    k' := k;
    if s.runq[k] != pid && s.status[pid] == Ready {
      k' := RemovePlace(s.runq, pid, k);
    }
  }

  lemma RunPlace(trace: seq<State>, ops: seq<Op>, m: nat, k: nat) returns (k': nat)
    requires IsRun(trace, ops) && m < |ops| && k < |trace[m].runq|
    ensures MovedUp(ops[m], trace[m + 1], trace[m].runq[k], k, k')
  {
    RunKeeps(trace, ops, m);
    assert StepAt(trace, ops, m);
    k' := PlaceAfterStep(trace[m], ops[m], trace[m + 1], k);
  }

  /**
   * Bounded waiting: a READY thread with k threads ahead of it at point m of a run is running after the
   * (k+1)-th call of schedule at the latest, whatever else happens in between, unless it has died. n is
   * the point at which that is so.
   */
  lemma {:induction false} BoundedWaiting(trace: seq<State>, ops: seq<Op>, m: nat, k: nat) returns (n: nat)
    requires IsRun(trace, ops) && m < |ops| && k < |trace[m].runq| && Schedules(ops[m..]) > k
    ensures m < n <= |ops| && Schedules(ops[m..n]) <= k + 1
    ensures var t := trace[m].runq[k]; t in trace[n].exits || Dispatched(ops[n - 1], trace[n], t)
    decreases |ops| - m
  {
    var t, op := trace[m].runq[k], ops[m];
    var k' := RunPlace(trace, ops, m, k);
    assert ops[m..][0] == op && ops[m..][1..] == ops[m + 1..];
    n := m + 1;
    if t in trace[n].exits || Dispatched(op, trace[n], t) {
      assert ops[m..n] == [op];
    } else {
      LaterPoint(ops, m);
      n := BoundedWaiting(trace, ops, m + 1, k');
      assert ops[m..n][0] == op && ops[m..n][1..] == ops[m + 1..n];
    }
  }

  lemma LaterPoint(ops: seq<Op>, m: nat)
    requires m < |ops|
    ensures Schedules(ops[m..]) == (if ops[m].Reschedule? then 1 else 0) + Schedules(ops[m + 1..])
    ensures Schedules(ops[m + 1..]) > 0 ==> m + 1 < |ops|
  {
    assert ops[m..][1..] == ops[m + 1..];
  }

  // ---- pid lookup ----

  /** Following parent links from x leads to root. */
  ghost predicate Descends(info: map<nat, Info>, x: nat, root: nat)
    decreases x
  {
    x == root || (x in info && info[x].parent.Some? && info[x].parent.value < x &&
                  Descends(info, info[x].parent.value, root))
  }

  lemma AttachedParent(info: map<nat, Info>, dead: set<nat>, zombies: seq<nat>, nextTid: nat, x: nat)
    requires ProcessInv(info, dead, zombies, nextTid) && Attached(info, zombies, x) && x != BOOT
    ensures info[x].parent.Some? && info[x].parent.value < x && Attached(info, zombies, info[x].parent.value)
    ensures x in info[info[x].parent.value].children
  {
    assert ListedByParent(info, x);
    assert ChildrenOk(info, zombies, info[x].parent.value);
  }

  /** Every thread not yet handed to the reaper is in the tree under the bootstrap thread. */
  lemma {:induction false} AllUnderBoot(info: map<nat, Info>, dead: set<nat>, zombies: seq<nat>, nextTid: nat, x: nat)
    requires ProcessInv(info, dead, zombies, nextTid) && Attached(info, zombies, x)
    ensures Descends(info, x, BOOT)
    decreases x
  {
    if x != BOOT {
      AttachedParent(info, dead, zombies, nextTid, x);
      AllUnderBoot(info, dead, zombies, nextTid, info[x].parent.value);
    }
  }

  /** A proper descendant of root lies under one of root's children. */
  lemma {:induction false} UnderSomeChild(info: map<nat, Info>, dead: set<nat>, zombies: seq<nat>, nextTid: nat, x: nat,
                                          root: nat) returns (c: nat)
    requires ProcessInv(info, dead, zombies, nextTid) && Attached(info, zombies, x) && Descends(info, x, root) &&
             x != root
    ensures root in info && c in info[root].children && Descends(info, x, c)
    decreases x
  {
    AttachedParent(info, dead, zombies, nextTid, x);
    var p := info[x].parent.value;
    if p == root {
      c := x;
    } else {
      c := UnderSomeChild(info, dead, zombies, nextTid, p, root);
    }
  }

  lemma {:induction false} UnderParent(info: map<nat, Info>, x: nat, c: nat, root: nat)
    requires Descends(info, x, c) && c in info && info[c].parent == Some(root) && root < c
    ensures Descends(info, x, root)
    decreases x
  {
    if x != c {
      UnderParent(info, info[x].parent.value, c, root);
    }
  }
}
