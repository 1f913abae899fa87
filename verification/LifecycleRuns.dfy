/** Lifecycle safety over whole runs, and the scheduler run inside every kernel run. */
module LifecycleRuns {
  import S = MlfqModel
  import R = MlfqRuns
  import I = MlfqInvariants
  import opened MlfqStatus
  import opened LifecycleModel
  import opened Lifecycle

  ghost predicate Feasible(k: Kernel, run: seq<Step>)
    decreases |run|
  {
    run != [] ==> S.Shape(k.sched) && Enabled(k, run[0]) && Feasible(Next(k, run[0]), run[1..])
  }

  ghost function After(k: Kernel, run: seq<Step>): Kernel
    requires Feasible(k, run)
    decreases |run|
  {
    if run == [] then k else After(Next(k, run[0]), run[1..])
  }

  lemma BootSafe(idle: Tid, reaper: Tid, root: Root)
    requires idle != reaper
    ensures KInv(BootKernel(idle, reaper, root))
  {
    R.BootInv(idle, reaper);
  }

  lemma {:induction false} RunSafe(k: Kernel, run: seq<Step>)
    requires KInv(k) && Feasible(k, run)
    ensures KInv(After(k, run))
    decreases |run|
  {
    if run != [] {
      StepSafe(k, run[0]);
      RunSafe(Next(k, run[0]), run[1..]);
    }
  }

  /** Address-space lifetime.  After any run from boot nothing has faulted: no destroyed address space was
      loaded, no loaded one was destroyed, and scheduling and waitpid found every process they looked for.
      What is loaded is the running process's space, and every thread that has not exited owns a live one. */
  lemma AddressSpaceLifetime(idle: Tid, reaper: Tid, root: Root, run: seq<Step>)
    requires idle != reaper && Feasible(BootKernel(idle, reaper, root), run)
    ensures var k := After(BootKernel(idle, reaper, root), run);
      && !k.faulted && Loaded(k) && Live(k, k.cr3)
      && forall t :: Alive(k, t) ==> k.owner[t] in k.procs && k.procs[k.owner[t]].space in k.spaces
  {
    BootSafe(idle, reaper, root);
    RunSafe(BootKernel(idle, reaper, root), run);
    var k := After(BootKernel(idle, reaper, root), run);
    CurrentAlive(k);
    forall t | Alive(k, t) ensures k.owner[t] in k.procs && k.procs[k.owner[t]].space in k.spaces {
      assert ThreadOk(k, t) && ProcessOk(k, k.owner[t]);
    }
    assert ThreadOk(k, k.sched.current);
  }

  // ---- Reads of freed processes -----------------------------------------------------------------

  ghost predicate ParentReaped(k: Kernel)
    requires Calling(k)
  {
    k.procs[Caller(k)].parent != S.NULL && k.procs[Caller(k)].parentSerial in k.reaped
  }

  /** Exit of a process whose parent has been reaped, getppid of such a process, and the reaper's free of a
      thread whose process has been reaped. */
  ghost predicate Dangles(k: Kernel, e: Step)
    requires Enabled(k, e)
  {
    match e
    case ExitCall(_) => ParentReaped(k)
    case ParentCall => ParentReaped(k)
    case Free => var t := k.sched.dying[0]; t in k.owner && t in k.born && k.born[t] in k.reaped
    case _ => false
  }

  /** A pointer to a process dangles exactly when the process it was made for has been reaped. */
  lemma DeletedIffReaped(k: Kernel, a: Addr, n: nat)
    requires Core(k) && Linked(k, a, n)
    ensures Deleted(k, a, n) <==> n in k.reaped
  {
    assert ProcessOk(k, a);
  }

  lemma ExitDangles(k: Kernel, status: int)
    requires KInv(k) && S.Shape(k.sched) && Calling(k)
    ensures Exit(k, status).dangling <==> k.dangling || Dangles(k, ExitCall(status))
  {
    ParentDeletedIff(k);
    ExitReschedules(k, status);
  }

  lemma ParentDeletedIff(k: Kernel)
    requires KInv(k) && Calling(k)
    ensures ParentDeleted(k, Caller(k)) <==> ParentReaped(k)
  {
    var p := Caller(k);
    assert ProcessOk(k, p);
    if k.procs[p].parent != S.NULL { DeletedIffReaped(k, k.procs[p].parent, k.procs[p].parentSerial); }
  }

  lemma FreeDangles(k: Kernel)
    requires KInv(k) && Enabled(k, Free)
    ensures FreeThread(k).dangling <==> k.dangling || Dangles(k, Free)
  {
    var t := k.sched.dying[0];
    assert ThreadOk(k, t);
    if t in k.owner { DeletedIffReaped(k, k.owner[t], k.born[t]); }
  }

  lemma OthersDoNotDangle(k: Kernel, e: Step)
    requires S.Shape(k.sched) && Enabled(k, e) && !e.ExitCall? && !e.Free? && !e.ParentCall?
    ensures Next(k, e).dangling == k.dangling
  {}

  /** These steps, and no others, read a freed process. */
  lemma StepDangles(k: Kernel, e: Step)
    requires KInv(k) && Enabled(k, e)
    ensures S.Shape(k.sched) && (Next(k, e).dangling <==> k.dangling || Dangles(k, e))
  {
    S.InvShape(k.sched);
    match e
    case ExitCall(status) => ExitDangles(k, status);
    case Free => FreeDangles(k);
    case ParentCall => ParentDeletedIff(k);
    case _ => OthersDoNotDangle(k, e);
  }

  ghost predicate RunDangles(k: Kernel, run: seq<Step>)
    requires Feasible(k, run)
    decreases |run|
  {
    run != [] && (Dangles(k, run[0]) || RunDangles(Next(k, run[0]), run[1..]))
  }

  lemma {:induction false} DanglingIff(k: Kernel, run: seq<Step>)
    requires KInv(k) && Feasible(k, run)
    ensures After(k, run).dangling <==> k.dangling || RunDangles(k, run)
    decreases |run|
  {
    if run != [] {
      StepDangles(k, run[0]);
      StepSafe(k, run[0]);
      DanglingIff(Next(k, run[0]), run[1..]);
    }
  }

  /** After a run from boot a freed process has been read if and only if some process exited or asked for its
      parent's pid after its parent had been reaped, or the reaper freed a thread after its process had been
      reaped. */
  lemma FreedProcessReadIff(idle: Tid, reaper: Tid, root: Root, run: seq<Step>)
    requires idle != reaper && Feasible(BootKernel(idle, reaper, root), run)
    ensures After(BootKernel(idle, reaper, root), run).dangling <==> RunDangles(BootKernel(idle, reaper, root), run)
  {
    BootSafe(idle, reaper, root);
    DanglingIff(BootKernel(idle, reaper, root), run);
  }

  /** Exit statuses.  After any run from boot no waitpid re-check has failed, no serial number was
      collected twice, every collected status has the low eight bits of the one its process
      exited with in bits 8 to 15 and zeros below, and every exited process is still a zombie or has been collected. */
  lemma StatusesCollectedOnce(idle: Tid, reaper: Tid, root: Root, run: seq<Step>)
    requires idle != reaper && Feasible(BootKernel(idle, reaper, root), run)
    ensures var k := After(BootKernel(idle, reaper, root), run);
      && RecheckFailed !in k.events
      && (forall i, j :: 0 <= i < j < |k.events| && k.events[i].Collected? && k.events[j].Collected? ==>
            k.events[i].serial != k.events[j].serial)
      && (forall i :: 0 <= i < |k.events| && k.events[i].Collected? ==>
            k.events[i].serial in k.exited && k.events[i].wstatus % 256 == 0 &&
            k.events[i].wstatus / 256 == k.exited[k.events[i].serial] % 256)
      && (forall n :: n in k.exited ==>
            (exists a :: Zombie(k, a, n)) || (exists i: nat :: IsCollected(k, i) && k.events[i].serial == n))
  {
    BootSafe(idle, reaper, root);
    RunSafe(BootKernel(idle, reaper, root), run);
    var k := After(BootKernel(idle, reaper, root), run);
    forall i | 0 <= i < |k.events|
      ensures k.events[i] != RecheckFailed
      ensures k.events[i].Collected? ==>
                k.events[i].serial in k.exited && k.events[i].wstatus % 256 == 0 &&
                k.events[i].wstatus / 256 == k.exited[k.events[i].serial] % 256
    {
      assert EventOk(k, i);
      assert k.events[i].Collected? ==> IsCollected(k, i);
    }
    forall i, j | 0 <= i < j < |k.events| && k.events[i].Collected? && k.events[j].Collected?
      ensures k.events[i].serial != k.events[j].serial
    {
      assert Once(k, i, j) && IsCollected(k, i) && IsCollected(k, j);
    }
    forall n | n in k.exited
      ensures (exists a :: Zombie(k, a, n)) || (exists i: nat :: IsCollected(k, i) && k.events[i].serial == n)
    {
      assert ExitOk(k, n);
    }
  }

  lemma WaiterPlaces(k: Kernel, p: Addr, t: Tid)
    requires KInv(k) && S.Shape(k.sched) && p in k.procs && k.sched.current in k.owner && k.owner[k.sched.current] == p
    requires SleepsOn(k.sched, t, p)
    ensures S.Shape(Woken(k, p)) && |S.Terminate(Woken(k, p)).queues| == S.NUM_LEVELS
    ensures S.Places(S.Terminate(Woken(k, p)), t) == 1
  {
    assert S.Coherent(k.sched, t);
    assert ThreadOk(k, k.sched.current);
    WokenStatus(k, p);
    I.WakeFromKeeps(k.sched, p, false, 0);
    I.TerminateKeeps(Woken(k, p));
  }

  lemma ExitSched(k: Kernel, status: int)
    requires S.Shape(k.sched) && Calling(k)
    ensures S.Shape(Woken(k, Caller(k)))
    ensures var n := Exit(k, status);
      && n.sched == S.Terminate(Woken(k, Caller(k))) && n.awaiting == k.awaiting
      && n.procs == MarkZombie(k, Caller(k), status).procs
  {
    var z := MarkZombie(k, Caller(k), status);
    RescheduleFrame(z.(sched := Woken(k, Caller(k))), S.Terminate(Woken(k, Caller(k))));
  }

  lemma RescheduleFrame(k: Kernel, s: S.Sched)
    ensures Reschedule(k, s).sched == s && Reschedule(k, s).awaiting == k.awaiting && Reschedule(k, s).procs == k.procs
  {
    if s.current == k.sched.current {
      assert Reschedule(k, s) == k.(sched := s);
    } else {
      var r, f := RootOf(k, s.current), k.faulted || BadSwitch(k, s.current);
      assert Reschedule(k, s) == k.(sched := s, cr3 := r, faulted := f);
    }
  }

  /** What exit leaves the scheduler in, for a thread that sleeps on the exiting process. */
  lemma WaiterQueued(k: Kernel, p: Addr, t: Tid)
    requires KInv(k) && S.Shape(k.sched) && p in k.procs && k.sched.current in k.owner && k.owner[k.sched.current] == p
    requires SleepsOn(k.sched, t, p) && t != k.sched.current
    ensures S.Shape(Woken(k, p))
    ensures var s := S.Terminate(Woken(k, p));
      && |s.queues| == S.NUM_LEVELS && s.threads.Keys == k.sched.threads.Keys
      && (R.Queued(s, t) || s.current == t)
      && forall u :: u in k.sched.threads && u != t && u != k.sched.current ==> StatusIn(s, u) == StatusIn(k.sched, u)
  {
    ExitedStatus(k, p);
    WaiterPlaces(k, p, t);
    var s := S.Terminate(Woken(k, p));
    assert S.Coherent(s, t);
    forall u | u in k.sched.threads && u != t && u != k.sched.current
      ensures StatusIn(s, u) == StatusIn(k.sched, u)
    {
      if SleepsOn(k.sched, u, p) { OneSleeper(k, p, t, u); }
    }
  }

  /** No missed exit wake-up: exit makes the thread waiting for this process ready, wakes nobody
      else, and leaves that thread inside waitpid with a zombie to collect. */
  lemma ExitReadiesTheWaiter(k: Kernel, status: int, t: Tid)
    requires KInv(k) && Calling(k) && t in k.awaiting && k.awaiting[t] == Caller(k)
    ensures S.Shape(k.sched)
    ensures var n := Exit(k, status);
      && |n.sched.queues| == S.NUM_LEVELS && n.sched.threads.Keys == k.sched.threads.Keys && t in n.sched.threads
      && (R.Queued(n.sched, t) || n.sched.current == t)
      && n.awaiting == k.awaiting && Caller(k) in n.procs && n.procs[Caller(k)].zombie
      && (forall u :: u in k.sched.threads && u != t && u != k.sched.current ==> StatusIn(n.sched, u) == StatusIn(k.sched, u))
  {
    S.InvShape(k.sched);
    CurrentAlive(k);
    assert ThreadOk(k, k.sched.current) && AwaitOk(k, t) && ThreadOk(k, t);
    ExitSched(k, status);
    WaiterQueued(k, Caller(k), t);
  }

  // ---- The scheduler run inside a kernel run ---------------------------------------------------

  /** The scheduler steps a kernel step performs. */
  ghost function Project(k: Kernel, e: Step): seq<S.Step>
    requires S.Shape(k.sched) && Enabled(k, e)
  {
    match e
    case Tick => [S.TickStep]
    case Yield => [S.YieldStep]
    case SleepOn(channel) => [S.BlockStep(channel)]
    case WakeOn(channel, all) => [S.WakeStep(channel, all)]
    case Collect => [S.CollectStep]
    case Free => [S.FreeStep]
    case Spawn(_, t, _) => [S.AddStep(t, 0)]
    case ForkCall(_, t, _, memory) => if FreePid(k.pids, 0) == MAX_PID || !memory then [] else [S.AddStep(t, 0)]
    case ExecCall(_, _) => []
    case ExitCall(_) =>
      if k.procs[Caller(k)].parent != S.NULL then [S.WakeStep(Caller(k), false), S.ExitStep] else [S.ExitStep]
    case WaitCall(pid, noHang) =>
      if !AllAllocated(k, k.procs[Caller(k)].children) then [] else
      var c := FindChild(k, k.procs[Caller(k)].children, pid);
      if c == S.NULL || c !in k.procs || k.procs[c].zombie || noHang then [] else [S.BlockStep(c)]
    case Resume => []
    case ParentCall => []
  }

  lemma OneStep(s: S.Sched, e: S.Step)
    requires S.Shape(s) && S.Enabled(s, e)
    ensures R.Feasible(s, [e]) && R.After(s, [e]) == S.Next(s, e)
  {
    assert [e][1..] == [];
    assert R.Feasible(S.Next(s, e), []);
  }

  lemma TwoSteps(s: S.Sched, e: S.Step, f: S.Step)
    requires S.Shape(s) && S.Enabled(s, e) && S.Shape(S.Next(s, e)) && S.Enabled(S.Next(s, e), f)
    ensures R.Feasible(s, [e, f]) && R.After(s, [e, f]) == S.Next(S.Next(s, e), f)
  {
    assert [e, f][1..] == [f];
    OneStep(S.Next(s, e), f);
  }

  lemma ExitProjects(k: Kernel, status: int)
    requires KInv(k) && S.Shape(k.sched) && Calling(k)
    ensures R.Feasible(k.sched, Project(k, ExitCall(status)))
    ensures R.After(k.sched, Project(k, ExitCall(status))) == Exit(k, status).sched
  {
    assert ThreadOk(k, k.sched.current);
    WokenStatus(k, Caller(k));
    ExitSched(k, status);
    if k.procs[Caller(k)].parent != S.NULL {
      TwoSteps(k.sched, S.WakeStep(Caller(k), false), S.ExitStep);
    } else {
      OneStep(k.sched, S.ExitStep);
    }
  }

  lemma WaitProjects(k: Kernel, pid: nat, noHang: bool)
    requires KInv(k) && S.Shape(k.sched) && Calling(k)
    ensures R.Feasible(k.sched, Project(k, WaitCall(pid, noHang)))
    ensures R.After(k.sched, Project(k, WaitCall(pid, noHang))) == WaitPid(k, pid, noHang).sched
  {
    assert ThreadOk(k, k.sched.current);
    var p := Project(k, WaitCall(pid, noHang));
    if p != [] { OneStep(k.sched, p[0]); }
  }

  /** The steps that only schedule. */
  lemma ScheduleProjects(k: Kernel, e: Step)
    requires KInv(k) && S.Shape(k.sched) && Enabled(k, e) && (e.Tick? || e.Yield? || e.SleepOn? || e.WakeOn? || e.Collect? || e.Free?)
    ensures R.Feasible(k.sched, Project(k, e)) && R.After(k.sched, Project(k, e)) == Next(k, e).sched
  {
    var f := Project(k, e)[0];
    assert Project(k, e) == [f];
    OneStep(k.sched, f);
    match e
    case Tick => RescheduleFrame(k, S.Tick(k.sched));
    case Yield => RescheduleFrame(k, S.Yield(k.sched));
    case SleepOn(channel) => RescheduleFrame(k, S.Block(k.sched, channel));
    case _ =>
  }

  lemma CreateProjects(k: Kernel, e: Step)
    requires KInv(k) && S.Shape(k.sched) && Enabled(k, e) && (e.Spawn? || e.ForkCall?)
    ensures R.Feasible(k.sched, Project(k, e)) && R.After(k.sched, Project(k, e)) == Next(k, e).sched
  {
    if Project(k, e) == [] { assert R.Feasible(k.sched, []); } else { OneStep(k.sched, S.AddStep(e.t, 0)); }
  }

  lemma QuietProjects(k: Kernel, e: Step)
    requires KInv(k) && S.Shape(k.sched) && Enabled(k, e) && (e.ExecCall? || e.Resume? || e.ParentCall?)
    ensures R.Feasible(k.sched, Project(k, e)) && R.After(k.sched, Project(k, e)) == Next(k, e).sched
  {
    assert R.Feasible(k.sched, []);
  }

  /** Each kernel step is a run of the scheduler. */
  lemma StepProjects(k: Kernel, e: Step)
    requires KInv(k) && Enabled(k, e)
    ensures S.Shape(k.sched) && R.Feasible(k.sched, Project(k, e)) && R.After(k.sched, Project(k, e)) == Next(k, e).sched
  {
    S.InvShape(k.sched);
    match e
    case ExitCall(status) => ExitProjects(k, status);
    case WaitCall(pid, noHang) => WaitProjects(k, pid, noHang);
    case ExecCall(_, _) => QuietProjects(k, e);
    case Resume => QuietProjects(k, e);
    case ParentCall => QuietProjects(k, e);
    case Spawn(_, _, _) => CreateProjects(k, e);
    case ForkCall(_, _, _, _) => CreateProjects(k, e);
    case _ => ScheduleProjects(k, e);
  }

  ghost function ProjectRun(k: Kernel, run: seq<Step>): seq<S.Step>
    requires Feasible(k, run)
    decreases |run|
  {
    if run == [] then [] else Project(k, run[0]) + ProjectRun(Next(k, run[0]), run[1..])
  }

  lemma Regroup(a: seq<S.Step>, b: seq<S.Step>)
    requires a != []
    ensures a == [a[0]] + a[1..] && a + b == [a[0]] + (a[1..] + b)
  {}

  lemma RunCons(s: S.Sched, e: S.Step, rest: seq<S.Step>, run: seq<S.Step>)
    requires run == [e] + rest
    ensures R.Feasible(s, run) <==> S.Shape(s) && S.Enabled(s, e) && R.Feasible(S.Next(s, e), rest)
    ensures R.Feasible(s, run) ==> R.After(s, run) == R.After(S.Next(s, e), rest)
  {
    assert run[1..] == rest;
  }

  lemma {:induction false} ConcatRuns(s: S.Sched, a: seq<S.Step>, b: seq<S.Step>)
    requires R.Feasible(s, a) && R.Feasible(R.After(s, a), b)
    ensures R.Feasible(s, a + b) && R.After(s, a + b) == R.After(R.After(s, a), b)
    decreases |a|
  {
    if a == [] {
      assert a + b == b;
    } else {
      var e, rest := a[0], a[1..];
      Regroup(a, b);
      RunCons(s, e, rest, a);
      var n := S.Next(s, e);
      var mid := R.After(s, a);
      assert R.After(n, rest) == mid;
      ConcatRuns(n, rest, b);
      var both := rest + b;
      RunCons(s, e, both, a + b);
      assert R.After(s, a + b) == R.After(n, both) == R.After(mid, b);
    }
  }

  /** Every kernel run contains a scheduler run, so bounded waiting and the exact condition for
      conservation hold of the whole kernel. */
  lemma {:induction false} RunProjects(k: Kernel, run: seq<Step>)
    requires KInv(k) && Feasible(k, run)
    ensures R.Feasible(k.sched, ProjectRun(k, run)) && R.After(k.sched, ProjectRun(k, run)) == After(k, run).sched
    decreases |run|
  {
    if run != [] {
      StepProjects(k, run[0]);
      StepSafe(k, run[0]);
      RunProjects(Next(k, run[0]), run[1..]);
      ConcatRuns(k.sched, Project(k, run[0]), ProjectRun(Next(k, run[0]), run[1..]));
    }
  }

  /** A waiting parent gets the CPU: once its child exits, every kernel run with 120 + 5n ticks, n threads being
      ahead of the parent's thread when it first is on the top level, runs the parent's thread. */
  lemma ExitedChildRunsParent(k: Kernel, status: int, run: seq<Step>, t: Tid, n: nat)
    requires KInv(k) && Calling(k) && t in k.awaiting && k.awaiting[t] == Caller(k) && S.Shape(k.sched)
    requires Feasible(Exit(k, status), run)
    requires R.Feasible(Exit(k, status).sched, ProjectRun(Exit(k, status), run)) ==>
               R.AheadOnTop(Exit(k, status).sched, ProjectRun(Exit(k, status), run), t, n)
    requires R.Ticks(ProjectRun(Exit(k, status), run)) >= S.BOOST_INTERVAL + 20 + S.Quantum(0) * n
    ensures var e := Exit(k, status); var srun := ProjectRun(e, run);
      exists i :: 0 <= i <= |srun| && R.Feasible(e.sched, srun[..i]) && R.After(e.sched, srun[..i]).current == t
  {
    ExitReadiesTheWaiter(k, status, t);
    ExitKeeps(k, status);
    var e := Exit(k, status);
    RunProjects(e, run);
    var srun := ProjectRun(e, run);
    if e.sched.current == t {
      assert srun[..0] == [];
      assert R.Feasible(e.sched, srun[..0]) && R.After(e.sched, srun[..0]).current == t;
    } else {
      R.BoundedWaiting(e.sched, srun, t, n);
    }
  }
}
