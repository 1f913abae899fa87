/** What exit, waitpid and a reap leave, in terms of the tables before them, and when a step goes wrong. */
module LifecycleEffects {
  import S = MlfqModel
  import opened MlfqModel
  import K = LifecycleModel
  import opened LifecycleModel
  import L = Lifecycle
  import MlfqEffects
  import MlfqInvariants

  // ---- Exit -----------------------------------------------------------------------------------------

  lemma MovesOnly(k: Kernel, s: Sched)
    ensures var n := Reschedule(k, s);
      && n.sched == s && n.procs == k.procs && n.owner == k.owner && n.spaces == k.spaces && n.pids == k.pids
      && n.exited == k.exited && n.events == k.events && n.awaiting == k.awaiting && n.reaped == k.reaped
  {
    if s.current == k.sched.current {
      assert Reschedule(k, s) == k.(sched := s);
    } else {
      var r, f := RootOf(k, s.current), k.faulted || BadSwitch(k, s.current);
      assert Reschedule(k, s) == k.(sched := s, cr3 := r, faulted := f);
    }
  }

  /** Exit records the status, leaves a zombie that keeps pid and address space, and its thread Terminated at
      the end of the dead list. */
  lemma ExitEffect(k: Kernel, status: int)
    requires L.KInv(k) && S.Shape(k.sched) && Calling(k)
    ensures var n, p, t := Exit(k, status), Caller(k), k.sched.current;
      && n.procs == k.procs[p := k.procs[p].(zombie := true, status := status)]
      && n.exited == k.exited[k.procs[p].serial := status]
      && n.spaces == k.spaces && n.pids == k.pids && n.events == k.events && n.owner == k.owner
      && n.sched.dead == k.sched.dead + [t] && t in n.sched.threads && n.sched.threads[t].state == Terminated && n.sched.current != t
  {
    var p, t := Caller(k), k.sched.current;
    L.ExitReschedules(k, status);
    var w := L.Woken(k, p);
    L.CurrentAlive(k);
    L.WokenStatus(k, p);
    WokenLists(k.sched, p);
    assert w.dead == k.sched.dead && w.current == t;
    assert L.ThreadOk(k, t);
    MlfqEffects.TerminateEffect(w);
    var z := K.MarkZombie(k, p, status).(dangling := Exit(k, status).dangling, sched := w);
    MovesOnly(z, S.Terminate(w));
    TerminatedLeaves(w);
  }

  lemma WokenLists(s: Sched, channel: Addr)
    requires S.Inv(s) && S.Shape(s)
    ensures S.Wake(s, channel, false).dead == s.dead && S.Wake(s, channel, false).current == s.current
  {
    var i := MlfqEffects.MlfqStatus.WakeFirst(s, channel, 0);
  }

  lemma TerminatedLeaves(s: Sched)
    requires S.Inv(s) && S.Shape(s) && s.current != s.idle && s.current != s.reaper
    ensures S.Terminate(s).current != s.current && s.current in S.Terminate(s).threads
    ensures S.Terminate(s).threads[s.current].state == Terminated
  {
    MlfqInvariants.TerminateKeeps(s);
    MlfqEffects.OffQueues(s);
    MlfqEffects.TerminateEffect(s);
  }

  // ---- Reaping --------------------------------------------------------------------------------------

  /** Unlinking takes exactly the one node out. */
  lemma {:induction false} WithoutIs(front: seq<Addr>, c: Addr, back: seq<Addr>)
    requires c !in front
    ensures Without(front + [c] + back, c) == front + back
  {
    var all := front + [c] + back;
    if front == [] {
      assert all[0] == c && all[1..] == back;
    } else {
      assert all[0] == front[0] && all[1..] == front[1..] + [c] + back;
      WithoutIs(front[1..], c, back);
    }
  }

  /** A reap takes exactly the child out of its parent's list and the process table, frees its address space and
      its pid, unless that is reserved, and reports its exit status. */
  lemma ReapEffect(k: Kernel, p: Addr, front: seq<Addr>, c: Addr, back: seq<Addr>)
    requires L.KInv(k) && L.Reapable(k, p, c) && k.procs[p].children == front + [c] + back && c !in front
    ensures var n, child := K.Reap(k, p, c), k.procs[c];
      && n.procs == k.procs[p := k.procs[p].(children := front + back)] - {c}
      && n.spaces == k.spaces - {child.space} && n.reaped == k.reaped + {child.serial}
      && n.pids == (if 2 <= child.pid < 32768 then k.pids - {child.pid} else k.pids)
      && n.sched == k.sched && n.cr3 == k.cr3 && n.exited == k.exited
      && exists w :: L.Collects(k, n, c, w)
  {
    WithoutIs(front, c, back);
    L.ReapKeeps(k, p, c);
  }

  // ---- waitpid --------------------------------------------------------------------------------------

  /** What waitpid does with the first child that matches: a zombie is collected at once; for any other the
      caller is told so, or sleeps on it, last on the wait list. */
  lemma WaitPidAnswers(k: Kernel, pid: nat, noHang: bool, i: nat)
    requires L.KInv(k) && S.Shape(k.sched) && Calling(k)
    requires AllAllocated(k, k.procs[Caller(k)].children) && FirstMatch(k, k.procs[Caller(k)].children, pid, i)
    ensures var n, t, c := WaitPid(k, pid, noHang), k.sched.current, k.procs[Caller(k)].children[i];
      && (k.procs[c].zombie ==> n.procs.Keys == k.procs.Keys - {c} && n.sched == k.sched && exists w :: L.Collects(k, n, c, w))
      && (!k.procs[c].zombie && noHang ==> n == k.(events := k.events + [NotYet]))
      && (!k.procs[c].zombie && !noHang ==>
        && n.awaiting == k.awaiting[t := c] && n.events == k.events && n.procs == k.procs && n.sched.waiting == k.sched.waiting + [t]
        && t in n.sched.threads && n.sched.threads[t].state == Blocked && n.sched.threads[t].channel == c && n.sched.current != t)
  {
    var p, t := Caller(k), k.sched.current;
    var children := k.procs[p].children;
    var c := children[i];
    FindsFirst(k, children, pid);
    assert L.ChildrenOk(k, p) && L.ProcessOk(k, c);
    L.CurrentAlive(k);
    assert L.ThreadOk(k, t);
    if k.procs[c].zombie {
      forall u | u in k.awaiting ensures k.awaiting[u] != c { if k.awaiting[u] == c { L.OnlyCallerAwaits(k, u, c); } }
      L.ReapKeeps(k, p, c);
    } else if !noHang {
      MovesOnly(k.(awaiting := k.awaiting[t := c]), S.Block(k.sched, c));
      BlockLeaves(k.sched, c);
    }
  }

  lemma BlockLeaves(s: Sched, channel: Addr)
    requires S.Inv(s) && S.Shape(s) && s.current != s.idle
    ensures var t, r := s.current, S.Block(s, channel);
      r.waiting == s.waiting + [t] && t in r.threads && r.threads[t].state == Blocked && r.threads[t].channel == channel && r.current != t
  {
    MlfqEffects.OffQueues(s);
    MlfqEffects.BlockEffect(s, channel);
  }

  /** Without a matching child waitpid says so and changes nothing. */
  lemma WaitPidNoChild(k: Kernel, pid: nat, noHang: bool)
    requires S.Shape(k.sched) && Calling(k) && AllAllocated(k, k.procs[Caller(k)].children)
    requires forall a :: a in k.procs[Caller(k)].children ==> a in k.procs && pid != 0 && k.procs[a].pid != pid
    ensures WaitPid(k, pid, noHang) == k.(events := k.events + [NoChild])
  {
    FindsFirst(k, k.procs[Caller(k)].children, pid);
  }

  /** A resumed caller whose child is no zombie is told so, and nothing is reaped. */
  lemma RecheckFailsIff(k: Kernel)
    requires k.sched.current in k.awaiting && k.sched.current in k.owner && k.awaiting[k.sched.current] in k.procs && Caller(k) in k.procs
    ensures var n := WaitResume(k);
      && n.awaiting == k.awaiting - {k.sched.current}
      && (n.events == k.events + [RecheckFailed] <==> !k.procs[k.awaiting[k.sched.current]].zombie)
      && (!k.procs[k.awaiting[k.sched.current]].zombie ==> n.procs == k.procs)
  {
    var n := WaitResume(k);
    if k.procs[k.awaiting[k.sched.current]].zombie { assert n.events[|k.events|].Collected?; }
  }

  // ---- Faults ---------------------------------------------------------------------------------------

  predicate Loadable(k: Kernel, root: Root) { root in k.spaces || root == k.kernelRoot }

  /** A switch faults exactly when the thread switched to has no process, or one whose address space is gone. */
  lemma SwitchFaultsIff(k: Kernel, s: Sched)
    requires !k.faulted
    ensures var t := s.current;
      Reschedule(k, s).faulted <==>
        t != k.sched.current && t in k.owner && (k.owner[t] !in k.procs || !Loadable(k, k.procs[k.owner[t]].space))
  {}

  /** A reap faults exactly when the child's address space is gone already or is the one loaded, and a failing
      exec exactly when the root it puts back is of no live address space. */
  lemma FreeFaultsIff(k: Kernel, p: Addr, c: Addr, root: Root)
    requires !k.faulted && p in k.procs && c in k.procs && Calling(k) && NewSpace(k, root)
    ensures K.Reap(k, p, c).faulted <==> k.procs[c].space !in k.spaces || k.procs[c].space == k.cr3
    ensures Exec(k, root, false).faulted <==> !Loadable(k, k.cr3)
    ensures Exec(k, root, true).faulted <==> k.procs[Caller(k)].space !in k.spaces
  {}
}
