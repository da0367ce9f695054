/** The scheduler and the process system calls, as the object whose fields the kernel updates in place. */
module Sched {
  import opened Threads
  import opened Sequences
  import opened Wrappers

  class Scheduler {
    var status: map<nat, Status>
    var info: map<nat, Info>
    var runq: seq<nat>
    var zombies: seq<nat>
    var current: nat
    var nextTid: nat
    ghost var exits: map<nat, int>
    ghost var waited: seq<(nat, int)>
    ghost var freed: seq<nat>

    ghost function View(): State
      reads this
    {
      State(status, info, runq, zombies, current, nextTid, exits, waited, freed)
    }

    ghost predicate Valid()
      reads this
    {
      Inv(View())
    }

    /** sched_init. */
    constructor ()
      ensures Valid() && View() == Initial()
      ensures status == map[BOOT := Running, IDLE := Ready] && runq == [IDLE] && zombies == []
      ensures current == BOOT && nextTid == 2 && exits == map[] && waited == [] && freed == []
      ensures info == map[BOOT := Info(None, [IDLE], 0, false, false, None),
                          IDLE := Info(Some(BOOT), [], 0, false, false, None)]
    {
      status := map[BOOT := Running];
      info := map[BOOT := Info(None, [], 0, false, false, None)];
      runq, zombies, current, nextTid := [], [], BOOT, 1;
      exits, waited, freed := map[], [], [];
      new;
      status := status[nextTid := Ready];
      info := info[BOOT := info[BOOT].(children := info[BOOT].children + [nextTid])];
      info := info[nextTid := Info(Some(BOOT), [], 0, false, false, None)];
      runq := runq + [nextTid];
      nextTid := nextTid + 1;
      assert info[BOOT].children == [IDLE] && runq == [IDLE];
      assert status == Initial().status && info == Initial().info;
      RunStart(View());
    }

    /** thread_wakeup. */
    method WakeThread(t: nat)
      requires Valid() && t in status
      modifies `status, `runq
      ensures Valid() && View() == Wake(old(View()), t)
      ensures if old(status)[t] == Blocked then status == old(status)[t := Ready] && runq == old(runq) + [t]
              else status == old(status) && runq == old(runq)
    {
      WakeKeeps(View(), t);
      MakeReady(t);
    }

    method MakeReady(t: nat)
      requires t in status
      modifies `status, `runq
      ensures View() == Wake(old(View()), t)
    {
      if status[t] == Blocked {
        status := status[t := Ready];
        runq := runq + [t];
      }
    }

    /** thread_block before its call of schedule. */
    method MarkBlocked()
      requires Valid() && status[current] == Running && current != IDLE
      requires info[current].waiting.Some? ==> info[current].waiting.value !in Dead(status)
      modifies `status
      ensures Valid() && View() == Block(old(View())) && status == old(status)[current := Blocked]
    {
      BlockKeeps(View());
      status := status[current := Blocked];
    }

    /** schedule from a good state: the first thread in line runs. */
    method Reschedule()
      requires Valid()
      modifies `status, `runq, `current
      ensures Valid() && View() == Schedule(old(View()))
      ensures var going := old(status)[old(current)] == Running;
              var line := if going then old(runq) + [old(current)] else old(runq);
              && line != [] && current == line[0] && runq == line[1..]
              && status == (if going then old(status)[old(current) := Ready] else old(status))[current := Running]
    {
      ScheduleKeeps(View());
      ScheduleDispatches(View());
      Yield();
    }

    /** schedule. */
    method Yield()
      requires current in status
      modifies `status, `runq, `current
      ensures View() == Schedule(old(View()))
    {
      var prev := current;
      if status[prev] == Running {
        status := status[prev := Ready];
        runq := runq + [prev];
      }
      if runq == [] {
        if status[prev] == Ready {
          status := status[prev := Running];
        }
        return;
      }
      var next := runq[0];
      runq := runq[1..];
      status := status[next := Running];
      current := next;
    }

    /**
     * thread_create, and the linkage of thread_spawn_user and sys_fork; no thread and no change when kmalloc
     * gives no room.
     */
    method Create(user: bool, room: bool) returns (pid: Option<nat>)
      requires Valid() && status[current] == Running && (info[current].user ==> user)
      modifies `status, `info, `runq, `nextTid
      ensures Valid() && View() == if room then AddThread(old(View()), user) else old(View())
      ensures pid == if room then Some(old(nextTid)) else None
      ensures room ==>
                && nextTid == old(nextTid) + 1 && old(nextTid) !in old(status)
                && status == old(status)[old(nextTid) := Ready] && runq == old(runq) + [old(nextTid)]
                && info == old(info)[current := old(info)[current].(children :=
                                                                      old(info)[current].children + [old(nextTid)])]
                                    [old(nextTid) := Info(Some(current), [], 0, user, user, None)]
    {
      AddThreadKeeps(View(), user);
      if !room {
        return None;
      }
      pid := Some(nextTid);
      Link(nextTid, user);
    }

    method Link(pid: nat, user: bool)
      requires current in info && pid == nextTid
      modifies `status, `info, `runq, `nextTid
      ensures View() == AddThread(old(View()), user)
    {
      nextTid := nextTid + 1;
      info := info[current := info[current].(children := info[current].children + [pid])];
      info := info[pid := Info(Some(current), [], 0, user, user, None)];
      runq := runq + [pid];
      status := status[pid := Ready];
    }

    /** dfs_find_pid: finds pid exactly when it hangs somewhere under root. */
    method FindUnder(root: nat, pid: nat) returns (r: Option<nat>)
      requires Valid() && Attached(info, zombies, root)
      ensures r == if Attached(info, zombies, pid) && Descends(info, pid, root) then Some(pid) else None
      decreases nextTid - root
    {
      if root == pid {
        return Some(root);
      }
      ghost var dead := Dead(status);
      assert ChildrenOk(info, zombies, root);
      var children := info[root].children;
      for i := 0 to |children|
        invariant forall j :: 0 <= j < i ==> !(Attached(info, zombies, pid) && Descends(info, pid, children[j]))
      {
        assert children[i] in children;
        r := FindUnder(children[i], pid);
        if r.Some? {
          UnderParent(info, pid, children[i], root);
          return;
        }
      }
      if Attached(info, zombies, pid) && Descends(info, pid, root) {
        ghost var c := UnderSomeChild(info, dead, zombies, nextTid, pid, root);
      }
      r := None;
    }

    /** find_thread_by_pid: every thread not yet handed to the reaper is found. */
    method FindByPid(pid: nat) returns (r: Option<nat>)
      requires Valid()
      ensures r == if Attached(info, zombies, pid) then Some(pid) else None
    {
      r := FindUnder(BOOT, pid);
      if Attached(info, zombies, pid) {
        AllUnderBoot(info, Dead(status), zombies, nextTid, pid);
      }
    }

    /** sys_waitpid up to its loop; false is its return of -1. */
    method WaitEnter(pid: nat) returns (found: bool)
      requires Valid() && status[current] == Running && info[current].user
      modifies `info
      ensures Valid() && View() == WaitBegin(old(View()), pid)
      ensures found <==> pid in old(info)[current].children
      ensures info == if found then old(info)[current := old(info)[current].(waiting := Some(pid))] else old(info)
    {
      WaitBeginKeeps(View(), pid);
      found := FindChild(pid);
      if found {
        info := info[current := info[current].(waiting := Some(pid))];
      }
    }

    /** The shell, before its wait for the process it has spawned. */
    method AwaitSpawned(pid: nat)
      requires Valid() && status[current] == Running && current != IDLE && UserChild(info, current, pid)
      modifies `info
      ensures Valid() && View() == WaitBegin(old(View()), pid)
      ensures info == old(info)[current := old(info)[current].(waiting := Some(pid))]
    {
      WaitBeginKeeps(View(), pid);
      info := info[current := info[current].(waiting := Some(pid))];
    }

    /** The search of sys_waitpid through the children. */
    method FindChild(pid: nat) returns (found: bool)
      requires current in info
      ensures found <==> pid in info[current].children
    {
      var children := info[current].children;
      found := false;
      for i := 0 to |children|
        invariant found <==> pid in children[..i]
      {
        if children[i] == pid {
          found := true;
          break;
        }
      }
    }

    /**
     * One turn of the wait loops: block, or collect the dead child and return its status. The state stays good
     * iff the child collected has no children.
     */
    method WaitStep() returns (r: Option<int>)
      requires Valid() && Waiting(View())
      modifies this
      ensures var c := old(info)[old(current)].waiting.value;
              if old(status)[c] == Zombie
              then r == Some(old(exits)[c]) && View() == Collect(old(View()))
                   && (Valid() <==> old(info)[c].children == [])
              else r == None && View() == Block(old(View())) && Valid()
      ensures var c, t := old(info)[old(current)].waiting.value, old(current);
              if old(status)[c] == Zombie then
                && waited == old(waited) + [(c, old(exits)[c])] && zombies == old(zombies) + [c]
                && info == old(info)[t := old(info)[t].(waiting := None, children := Remove(old(info)[t].children, c))]
                && status == old(status) && runq == old(runq) && current == old(current)
              else
                status == old(status)[t := Blocked] && info == old(info) && zombies == old(zombies)
    {
      var c := info[current].waiting.value;
      if status[c] != Zombie {
        WaitTurnKeeps(View());
        status := status[current := Blocked];
        return None;
      }
      CollectIff(View());
      r := Some(info[c].exitStatus);
      TakeChild(c);
    }

    /** The end of the wait loops: the child's status is noted, the child unlinked and handed to the reaper. */
    method TakeChild(c: nat)
      requires current in info && c in info && info[current].waiting == Some(c) && c != current
      requires info[c].parent == Some(current)
      modifies `info, `zombies, `waited
      ensures View() == Collect(old(View()))
    {
      waited := waited + [(c, info[c].exitStatus)];
      info := info[current := info[current].(waiting := None)];
      Unlink(c);
    }

    /** list_del of the sibling link, then sched_zombify. */
    method Unlink(t: nat)
      requires t in info && info[t].parent.Some? && info[t].parent.value in info
      modifies `info, `zombies
      ensures View() == Detach(old(View()), t)
    {
      var p := info[t].parent.value;
      info := info[p := info[p].(children := Remove(info[p].children, t))];
      zombies := zombies + [t];
    }

    method Kill(t: nat, code: int)
      requires t in status && t in info
      modifies `status, `info, `runq, `exits
      ensures View() == Die(old(View()), t, code)
    {
      if status[t] == Ready {
        runq := Remove(runq, t);
      }
      status := status[t := Zombie];
      info := info[t := info[t].(exitStatus := code, image := false)];
      exits := exits[t := code];
    }

    /** The victim becomes a zombie with its status recorded, then its parent is woken. */
    method KillAndNotify(t: nat, code: int)
      requires t in status && t in info && info[t].parent.Some? && info[t].parent.value in status
      modifies `status, `info, `runq, `exits
      ensures View() == WakeParent(Die(old(View()), t, code), t)
    {
      Kill(t, code);
      MakeReady(info[t].parent.value);
    }

    /** The reparenting loop of sys_exit. */
    method Reparent(t: nat)
      requires t in info && BOOT in info && t != BOOT && NoDup(info[t].children)
      requires forall c :: c in info[t].children ==> c in info && c != t && c != BOOT
      modifies `info
      ensures info == AdoptAll(old(info), t)
    {
      ghost var k := 0;
      ghost var cs := info[t].children;
      AdoptNone(info, t);
      while info[t].children != []
        invariant k <= |cs| && info == Adopted(old(info), t, k)
        decreases |cs| - k
      {
        AdoptTurn(old(info), t, k);
        var c := info[t].children[0];
        info := info[t := info[t].(children := info[t].children[1..])];
        info := info[c := info[c].(parent := Some(BOOT))];
        info := info[BOOT := info[BOOT].(children := info[BOOT].children + [c])];
        k := k + 1;
      }
    }

    /** sys_exit up to its call of schedule. */
    method ExitCurrent(code: int)
      requires Valid() && Acting(View()) && info[current].user && HasLiveParent(View(), current)
      modifies this
      ensures Valid() && View() == Exit(old(View()), code)
      ensures ExitedInto(old(View()), code, View())
    {
      hide QueueInv, ProcessInv, RecordInv, NoLostWakeup, ExitedInto, Adopted, Wake;
      AdoptFacts(info, current);
      ExitMeans(View(), code);
      ExitKeeps(View(), code);
      OwnChildren(View());
      Reparent(current);
      KillAndNotify(current, code);
    }

    /** thread_exit up to its call of schedule. The state stays good iff the worker has no children. */
    method ExitWorker()
      requires Valid() && status[current] == Running && !info[current].user && Mortal(View(), current)
      requires HasLiveParent(View(), current)
      modifies this
      ensures View() == ThreadExit(old(View())) && (Valid() <==> old(info)[old(current)].children == [])
      ensures var t := old(current);
              var p := old(info)[t].parent.value;
              && status == old(status)[t := Zombie] && runq == old(runq) && zombies == old(zombies) + [t]
              && info == old(info)[t := old(info)[t].(image := false)]
                                  [p := old(info)[p].(children := Remove(old(info)[p].children, t))]
    {
      ParentElse(View());
      ThreadExitIff(View());
      Kill(current, info[current].exitStatus);
      Unlink(current);
    }

    /** sys_stop of another process; -1 when there is none to stop. */
    method StopOther(pid: nat) returns (r: int)
      requires Valid() && Acting(View()) && pid != current
      modifies this
      ensures Valid()
      ensures if Stoppable(old(View()), pid)
              then r == 0 && HasLiveParent(old(View()), pid) && View() == WakeParent(Die(old(View()), pid, -1), pid)
                   && DiedInto(old(View()), pid, -1, View())
              else r == -1 && View() == old(View())
    {
      var t := FindByPid(pid);
      if t.None? || !info[pid].image {
        return -1;
      }
      StoppableMortal(View(), pid);
      AlwaysDefined(View());
      StopKeeps(View(), pid);
      DeathMeans(View(), pid, -1);
      KillAndNotify(pid, -1);
      return 0;
    }

    /** sys_stop. Stopping oneself is an exit with -1, which does not return. */
    method StopPid(pid: nat) returns (r: Option<int>)
      requires Valid() && Acting(View()) && info[current].user
      modifies this
      ensures Valid() && Follows(old(View()), Stop(pid), View())
      ensures r == if pid == old(current) then None else if Stoppable(old(View()), pid) then Some(0) else Some(-1)
    {
      if pid == current {
        AliveNotReaped(View(), current);
        AlwaysDefined(View());
        ExitCurrent(-1);
        return None;
      }
      var code := StopOther(pid);
      r := Some(code);
    }

    /** kill_zombies: everything on the list is freed, in order. */
    method KillZombies()
      requires Valid() && current == IDLE && status[current] == Running
      modifies this
      ensures Valid() && View() == Freed(old(View()), |old(zombies)|) && zombies == []
      ensures freed == old(freed) + old(zombies) && runq == old(runq) && current == old(current)
      ensures forall t :: t in status <==> t in old(status) && t !in old(zombies)
      ensures forall t :: t in status ==> t in info && status[t] == old(status)[t] && info[t] == old(info)[t]
      ensures forall z :: z in old(zombies) ==> Reapable(old(View()), z)
    {
      hide Inv, Reapable;
      SameThreads(View());
      FreedKeeps(View(), |zombies|);
      AllReapable(View());
      FreeAll();
    }

    method FreeAll()
      modifies `zombies, `status, `info, `freed
      ensures View() == Freed(old(View()), |old(zombies)|) && zombies == []
    {
      ghost var k := 0;
      FreedNone(View());
      while zombies != []
        invariant 0 <= k <= |old(zombies)| && View() == Freed(old(View()), k)
        decreases |zombies|
      {
        FreedNext(old(View()), k);
        FreeOne();
        k := k + 1;
      }
    }

    method FreeOne()
      requires zombies != []
      modifies `zombies, `status, `info, `freed
      ensures View() == FreeFirst(old(View()))
    {
      var z := zombies[0];
      zombies := zombies[1..];
      status := status - {z};
      info := info - {z};
      freed := freed + [z];
    }
  }

  function Set(s: seq<nat>): set<nat> {
    set x | x in s
  }

  /** The first k threads on the reaper's list freed, in order, and nothing else changed. */
  function Freed(s: State, k: nat): State
    requires k <= |s.zombies|
  {
    s.(zombies := s.zombies[k..], status := s.status - Set(s.zombies[..k]), info := s.info - Set(s.zombies[..k]),
       freed := s.freed + s.zombies[..k])
  }

  lemma FreedNone(s: State)
    ensures Freed(s, 0) == s
  {
    assert s.zombies[..0] == [] && s.freed + [] == s.freed;
  }

  /** Freeing any number of the threads on the reaper's list keeps the invariant. */
  lemma {:induction false} FreedKeeps(s: State, k: nat)
    requires Inv(s) && s.status[s.current] == Running && k <= |s.zombies|
    ensures Inv(Freed(s, k)) && s.current in Freed(s, k).status && Freed(s, k).status[s.current] == Running
  {
    if k == 0 {
      FreedNone(s);
    } else {
      hide Inv;
      FreedKeeps(s, k - 1);
      FreedNext(s, k - 1);
      FreeFirstKeeps(Freed(s, k - 1));
    }
  }

  /** What the reaper frees is dead, not current, not queued and not freed before. */
  lemma EachReapable(s: State, i: nat)
    requires Inv(s) && s.status[s.current] == Running && i < |s.zombies|
    ensures Reapable(s, s.zombies[i])
  {
    hide Inv;
    FreedKeeps(s, i);
    FreeFirstKeeps(Freed(s, i));
    ReapableBefore(s, i);
  }

  /** What can be freed once others have been freed could have been freed first. */
  lemma ReapableBefore(s: State, k: nat)
    requires k < |s.zombies| && Reapable(Freed(s, k), s.zombies[k])
    ensures Reapable(s, s.zombies[k])
  {
  }

  lemma AllReapable(s: State)
    requires Inv(s) && s.status[s.current] == Running
    ensures forall z :: z in s.zombies ==> Reapable(s, z)
  {
    forall z | z in s.zombies ensures Reapable(s, z) {
      var i :| 0 <= i < |s.zombies| && s.zombies[i] == z;
      EachReapable(s, i);
    }
  }

  ghost predicate Reapable(s: State, z: nat) {
    z in s.status && s.status[z] == Zombie && z != s.current && z !in s.runq && z !in s.freed
  }

  lemma FreedNext(s: State, k: nat)
    requires k <= |s.zombies| && s.zombies[k..] != []
    ensures k < |s.zombies| && FreeFirst(Freed(s, k)) == Freed(s, k + 1)
  {
    var z := s.zombies;
    assert z[..k + 1] == z[..k] + [z[k]] && z[k..][1..] == z[k + 1..];
    assert Set(z[..k + 1]) == Set(z[..k]) + {z[k]};
    assert s.status - Set(z[..k]) - {z[k]} == s.status - Set(z[..k + 1]);
    assert s.info - Set(z[..k]) - {z[k]} == s.info - Set(z[..k + 1]);
    assert s.freed + z[..k] + [z[k]] == s.freed + z[..k + 1];
  }

  lemma OwnChildren(s: State)
    requires Inv(s)
    ensures NoDup(s.info[s.current].children)
    ensures forall c :: c in s.info[s.current].children ==> c in s.info && c != s.current && c != BOOT
  {
    assert ChildrenOk(s.info, s.zombies, s.current);
  }

  /** One turn of the reparenting loop. */
  lemma AdoptTurn(info: map<nat, Info>, t: nat, k: nat)
    requires t in info && BOOT in info && t != BOOT && NoDup(info[t].children)
    requires forall c :: c in info[t].children ==> c in info && c != t && c != BOOT
    requires k <= |info[t].children| && Adopted(info, t, k)[t].children != []
    ensures k < |info[t].children|
    ensures var info0 := Adopted(info, t, k);
            var c := info0[t].children[0];
            && c == info[t].children[k] && c in info0
            && var info1 := info0[t := info0[t].(children := info0[t].children[1..])];
               var info2 := info1[c := info1[c].(parent := Some(BOOT))];
               info2[BOOT := info2[BOOT].(children := info2[BOOT].children + [c])] == Adopted(info, t, k + 1)
  {
    var cs := info[t].children;
    var info0, c := Adopted(info, t, k), cs[k];
    assert cs[..k + 1] == cs[..k] + [c] && cs[k..][1..] == cs[k + 1..];
    assert c in cs && c !in cs[..k];
    var info1 := info0[t := info0[t].(children := info0[t].children[1..])];
    var info2 := info1[c := info1[c].(parent := Some(BOOT))];
    var info3 := info2[BOOT := info2[BOOT].(children := info2[BOOT].children + [c])];
    forall u | u in info ensures info3[u] == Adopted(info, t, k + 1)[u] {
      assert u in cs[..k + 1] <==> u in cs[..k] || u == c;
      if u == BOOT {
        assert info[BOOT].children + cs[..k] + [c] == info[BOOT].children + cs[..k + 1];
      }
    }
    assert info3.Keys == info.Keys;
  }

  lemma AdoptNone(info: map<nat, Info>, t: nat)
    requires t in info && BOOT in info && t != BOOT
    ensures Adopted(info, t, 0) == info
  {
    var cs := info[t].children;
    assert cs[..0] == [] && cs[0..] == cs && info[BOOT].children + [] == info[BOOT].children;
    forall u | u in info ensures Adopted(info, t, 0)[u] == info[u] {
    }
  }
}
