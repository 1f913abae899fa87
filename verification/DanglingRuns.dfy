/** Short runs from boot in which the kernel reads a process that has been freed.  Process A forks B, B exits
    and A collects it.  If B has forked C before, C reads its parent B when it exits or calls getppid.  And
    the reaper reads B when it frees B's thread. */
module DanglingRuns {
  import S = MlfqModel
  import opened MlfqModel
  import K = LifecycleModel
  import opened LifecycleModel
  import L = Lifecycle
  import R = LifecycleRuns

  const ROOT: Root := 100
  const CHANNEL: Addr := 99

  // ---- The scheduler's part -------------------------------------------------------------------------

  ghost function Thread(state: ThreadState): Tcb { Tcb(state, 0, 5, NULL) }
  const IDLE: Tcb := Tcb(Running, 2, 5, NULL)
  const REAPER: Tcb := Tcb(Ready, 2, 20, NULL)

  /** Idle is thread 0, the reaper thread 1; `top` is queued on level 0. */
  ghost function Machine(threads: map<Tid, Tcb>, top: seq<Tid>, dead: seq<Tid>, current: Tid, clock: nat): Sched {
    Sched(map[0 := IDLE, 1 := REAPER] + threads, [top, [], [1]], [], dead, [], current, 0, 1, clock)
  }

  lemma MachineShape(m: map<Tid, Tcb>, top: seq<Tid>, dead: seq<Tid>, current: Tid, clock: nat)
    requires clock < U64 && (current in m || current == 0) && (forall i :: 0 <= i < |top| ==> top[i] in m)
    requires forall t :: t in m ==> t > 1 && m[t].level == 0
    ensures Shape(Machine(m, top, dead, current, clock))
  {}

  lemma Added(m: map<Tid, Tcb>, top: seq<Tid>, dead: seq<Tid>, current: Tid, clock: nat, t: Tid)
    requires t > 1 && Shape(Machine(m, top, dead, current, clock))
    ensures S.AddThread(Machine(m, top, dead, current, clock), t, 0) == Machine(m[t := Thread(Ready)], top + [t], dead, current, clock)
  {
    var a := S.AddThread(Machine(m, top, dead, current, clock), t, 0);
    assert a.threads == map[0 := IDLE, 1 := REAPER] + m[t := Thread(Ready)];
    assert a.queues == [top + [t], [], [1]];
  }

  lemma FirstTick(t: Tid)
    requires t > 1
    ensures var s := Machine(map[t := Thread(Ready)], [t], [], 0, 0);
      Shape(s) && S.Tick(s) == Machine(map[t := Thread(Running)], [], [], t, 1)
  {
    var s := Machine(map[t := Thread(Ready)], [t], [], 0, 0);
    var r := S.Tick(s);
    assert [t][1..] == [];
    assert r.threads == map[0 := IDLE, 1 := REAPER] + map[t := Thread(Running)];
    assert r.queues == [[], [], [1]];
  }

  /** A Yield with another thread queued on level 0 hands over to that thread. */
  lemma Handed(m: map<Tid, Tcb>, next: Tid, rest: seq<Tid>, dead: seq<Tid>, current: Tid, clock: nat)
    requires next > 1 && current > 1 && next != current && next in m && current in m && m[current] == Thread(Running)
    requires Shape(Machine(m, [next] + rest, dead, current, clock))
    ensures S.Yield(Machine(m, [next] + rest, dead, current, clock)) ==
      Machine(m[current := Thread(Ready)][next := m[next].(state := Running)], rest + [current], dead, next, clock)
  {
    var s := Machine(m, [next] + rest, dead, current, clock);
    EnqueueShape(s, current, 0);
    var e := Enqueue(s, current, 0);
    assert e.queues == [[next] + rest + [current], [], [1]];
    assert e.queues[0][1..] == rest + [current];
    var r := S.Yield(s);
    assert r.queues == [rest + [current], [], [1]];
    assert r.threads == map[0 := IDLE, 1 := REAPER] + m[current := Thread(Ready)][next := m[next].(state := Running)];
  }

  /** An exit with another thread queued on level 0 hands over to that thread. */
  lemma Exited(m: map<Tid, Tcb>, next: Tid, rest: seq<Tid>, dead: seq<Tid>, current: Tid, clock: nat)
    requires next > 1 && current > 1 && next != current && next in m && current in m && m[current] == Thread(Running)
    requires Shape(Machine(m, [next] + rest, dead, current, clock))
    ensures S.Terminate(Machine(m, [next] + rest, dead, current, clock)) ==
      Machine(m[current := Thread(Terminated)][next := m[next].(state := Running)], rest, dead + [current], next, clock)
  {
    var s := Machine(m, [next] + rest, dead, current, clock);
    var r := S.Terminate(s);
    assert ([next] + rest)[1..] == rest;
    assert r.queues == [rest, [], [1]];
    assert r.threads == map[0 := IDLE, 1 := REAPER] + m[current := Thread(Terminated)][next := m[next].(state := Running)];
  }

  /** A sleep with nobody on level 0 hands over to the reaper. */
  lemma Slept(m: map<Tid, Tcb>, dead: seq<Tid>, current: Tid, clock: nat, channel: Addr)
    requires current > 1 && current in m && Shape(Machine(m, [], dead, current, clock))
    ensures var r := S.Block(Machine(m, [], dead, current, clock), channel);
      r.current == 1 && r.reaper == 1 && r.dead == dead && r.dying == [] && r.threads.Keys == {0, 1} + m.Keys && Shape(r)
  {
    var s := Machine(m, [], dead, current, clock);
    var b := s.(threads := s.threads[current := s.threads[current].(state := Blocked, channel := channel)], waiting := s.waiting + [current]);
    assert BestLevel(b.queues) == 2;
  }

  // ---- The kernel's part ----------------------------------------------------------------------------

  /** What the run needs to know of a kernel in which nobody is inside waitpid and nothing dangles yet. */
  ghost predicate At(k: Kernel, s: Sched, procs: map<Addr, Process>, owner: map<Tid, Addr>, born: map<Tid, nat>, spaces: set<Root>,
                     pids: set<nat>, serials: nat) {
    && k.sched == s && k.procs == procs && k.owner == owner && k.born == born && k.spaces == spaces && k.pids == pids && k.serials == serials
    && k.awaiting == map[] && k.kernelRoot == ROOT && !k.dangling
  }

  ghost function A(children: seq<Addr>): Process { Process(1, NULL, children, false, 0, 110, 0, 0) }
  ghost function B(children: seq<Addr>, zombie: bool): Process { Process(2, 10, children, zombie, 0, 111, 1, 0) }
  ghost function C(): Process { Process(3, 11, [], false, 0, 112, 2, 1) }

  lemma Pids()
    ensures FreePid({0}, 0) == 1 && FreePid({0, 1}, 0) == 2 && FreePid({0, 1, 2}, 0) == 3
  {
    assert FreePid({0}, 1) == 1;
    assert FreePid({0, 1}, 2) == 2 && FreePid({0, 1}, 1) == 2;
    assert FreePid({0, 1, 2}, 3) == 3 && FreePid({0, 1, 2}, 2) == 3 && FreePid({0, 1, 2}, 1) == 3;
  }

  const SPAWN: K.Step := Spawn(10, 2, 110)
  const FORK_B: K.Step := ForkCall(11, 3, 111, true)
  const FORK_C: K.Step := ForkCall(12, 4, 112, true)
  const EXIT: K.Step := ExitCall(0)
  const WAIT: K.Step := WaitCall(0, false)

  ghost predicate Moves(k: Kernel, e: K.Step, n: Kernel) { Shape(k.sched) && K.Enabled(k, e) && n == K.Next(k, e) }

  /** The kernels that step e can leave. */
  ghost function Reached(k: Kernel, e: K.Step): iset<Kernel> { iset n | Moves(k, e, n) }

  // ---- The stages of the runs -----------------------------------------------------------------------

  ghost predicate Booted(k: Kernel) {
    At(k, Machine(map[], [], [], 0, 0),
       map[], map[], map[], {}, {0}, 0)
  }

  ghost predicate AReady(k: Kernel) {
    At(k, Machine(map[2 := Thread(Ready)], [2], [], 0, 0),
       map[10 := A([])], map[2 := 10], map[2 := 0], {110}, {0, 1}, 1)
  }

  ghost predicate ARuns(k: Kernel) {
    At(k, Machine(map[2 := Thread(Running)], [], [], 2, 1),
       map[10 := A([])], map[2 := 10], map[2 := 0], {110}, {0, 1}, 1)
  }

  ghost predicate BReady(k: Kernel) {
    At(k, Machine(map[2 := Thread(Running), 3 := Thread(Ready)], [3], [], 2, 1),
       map[10 := A([11]), 11 := B([], false)], map[2 := 10, 3 := 11], map[2 := 0, 3 := 1], {110, 111}, {0, 1, 2}, 2)
  }

  ghost predicate BRuns(k: Kernel) {
    At(k, Machine(map[2 := Thread(Ready), 3 := Thread(Running)], [2], [], 3, 1),
       map[10 := A([11]), 11 := B([], false)], map[2 := 10, 3 := 11], map[2 := 0, 3 := 1], {110, 111}, {0, 1, 2}, 2)
  }

  ghost predicate BGone(k: Kernel) {
    At(k, Machine(map[2 := Thread(Running), 3 := Thread(Terminated)], [], [3], 2, 1),
       map[10 := A([11]), 11 := B([], true)], map[2 := 10, 3 := 11], map[2 := 0, 3 := 1], {110, 111}, {0, 1, 2}, 2)
  }

  ghost predicate BReaped(k: Kernel) {
    At(k, Machine(map[2 := Thread(Running), 3 := Thread(Terminated)], [], [3], 2, 1),
       map[10 := A([])], map[2 := 10, 3 := 11], map[2 := 0, 3 := 1], {110}, {0, 1}, 2)
  }

  ghost predicate CReady(k: Kernel) {
    At(k, Machine(map[2 := Thread(Ready), 3 := Thread(Running), 4 := Thread(Ready)], [2, 4], [], 3, 1),
       map[10 := A([11]), 11 := B([12], false), 12 := C()], map[2 := 10, 3 := 11, 4 := 12], map[2 := 0, 3 := 1, 4 := 2], {110, 111, 112}, {0, 1, 2, 3}, 3)
  }

  ghost predicate COrphaned(k: Kernel) {
    At(k, Machine(map[2 := Thread(Running), 3 := Thread(Terminated), 4 := Thread(Ready)], [4], [3], 2, 1),
       map[10 := A([11]), 11 := B([12], true), 12 := C()], map[2 := 10, 3 := 11, 4 := 12], map[2 := 0, 3 := 1, 4 := 2], {110, 111, 112}, {0, 1, 2, 3}, 3)
  }

  ghost predicate BCollected(k: Kernel) {
    At(k, Machine(map[2 := Thread(Running), 3 := Thread(Terminated), 4 := Thread(Ready)], [4], [3], 2, 1),
       map[10 := A([]), 12 := C()], map[2 := 10, 3 := 11, 4 := 12], map[2 := 0, 3 := 1, 4 := 2], {110, 112}, {0, 1, 3}, 3)
  }

  ghost predicate CRuns(k: Kernel) {
    At(k, Machine(map[2 := Thread(Ready), 3 := Thread(Terminated), 4 := Thread(Running)], [2], [3], 4, 1),
       map[10 := A([]), 12 := C()], map[2 := 10, 3 := 11, 4 := 12], map[2 := 0, 3 := 1, 4 := 2], {110, 112}, {0, 1, 3}, 3)
  }

  /** What a fork leaves, field by field. */
  lemma ForkLeaves(k: Kernel, a: Addr, t: Tid, root: Root, pid: nat)
    requires Shape(k.sched) && Calling(k) && a !in k.procs && FreePid(k.pids, 0) == pid < MAX_PID
    ensures var n := K.Fork(k, a, t, root, true);
      var p := Caller(k);
      && n.sched == S.AddThread(k.sched, t, 0) && n.owner == k.owner[t := a] && n.born == k.born[t := k.serials]
      && n.procs == k.procs[a := Process(pid, p, [], false, 0, root, k.serials, k.procs[p].serial)][p := k.procs[p].(children := k.procs[p].children + [a])]
      && n.spaces == k.spaces + {root} && n.pids == k.pids + {pid} && n.serials == k.serials + 1
      && n.awaiting == k.awaiting && n.kernelRoot == k.kernelRoot && n.dangling == k.dangling
  {
    ForkIs(k, a, t, root, pid);
  }

  /** What an exit leaves when nobody sleeps. */
  lemma ExitLeaves(k: Kernel)
    requires Shape(k.sched) && Calling(k) && k.sched.waiting == []
    ensures var n := K.Exit(k, 0);
      var p := Caller(k);
      && n.sched == S.Terminate(k.sched) && n.procs == k.procs[p := k.procs[p].(zombie := true, status := 0)]
      && n.owner == k.owner && n.born == k.born && n.spaces == k.spaces && n.pids == k.pids && n.serials == k.serials && n.reaped == k.reaped
      && n.awaiting == k.awaiting && n.kernelRoot == k.kernelRoot
      && n.dangling == (k.dangling || ParentDeleted(k, p))
  {
    var p := Caller(k);
    L.ExitReschedules(k, 0);
    assert L.Woken(k, p) == k.sched;
    var z := K.MarkZombie(k, p, 0).(dangling := K.Exit(k, 0).dangling, sched := k.sched);
    RescheduleRest(z, S.Terminate(k.sched));
  }

  lemma RescheduleRest(k: Kernel, s: Sched)
    ensures var n := K.Reschedule(k, s);
      && n.sched == s && n.procs == k.procs && n.owner == k.owner && n.born == k.born && n.spaces == k.spaces && n.pids == k.pids
      && n.serials == k.serials && n.reaped == k.reaped && n.awaiting == k.awaiting && n.kernelRoot == k.kernelRoot
  {
    R.RescheduleFrame(k, s);
    if s.current != k.sched.current {
      var r, f := RootOf(k, s.current), k.faulted || BadSwitch(k, s.current);
      assert K.Reschedule(k, s) == k.(sched := s, cr3 := r, faulted := f);
    }
  }

  /** What a waitpid for any child leaves when the only child is a zombie. */
  lemma WaitLeaves(k: Kernel, c: Addr)
    requires Shape(k.sched) && Calling(k) && k.procs[Caller(k)].children == [c] && c in k.procs && c != Caller(k) && c != NULL
    requires k.procs[c].zombie && 2 <= k.procs[c].pid < MAX_PID
    ensures var n := K.WaitPid(k, 0, false);
      var p := Caller(k);
      && n.sched == k.sched && n.procs == k.procs[p := k.procs[p].(children := [])] - {c}
      && n.owner == k.owner && n.born == k.born && n.spaces == k.spaces - {k.procs[c].space} && n.pids == k.pids - {k.procs[c].pid}
      && n.serials == k.serials && n.awaiting == k.awaiting && n.kernelRoot == k.kernelRoot && n.dangling == k.dangling
  {
    assert K.FindChild(k, [c], 0) == c;
    assert K.Without([c], c) == [];
  }

  // ---- The steps --------------------------------------------------------------------------------------

  lemma BootIsBooted()
    ensures Booted(BootKernel(0, 1, ROOT))
  {
    assert Boot(0, 1).threads == map[0 := IDLE, 1 := REAPER] + map[];
  }

  lemma SpawnStep(k: Kernel) returns (n: Kernel)
    requires Booted(k)
    ensures n in Reached(k, SPAWN) && AReady(n)
  {
    Pids();
    MachineShape(map[], [], [], 0, 0);
    Added(map[], [], [], 0, 0, 2);
    assert [] + [2] == [2];
    assert map[][2 := Thread(Ready)] == map[2 := Thread(Ready)];
    n := K.Next(k, SPAWN);
  }

  lemma TickStep(k: Kernel) returns (n: Kernel)
    requires AReady(k)
    ensures n in Reached(k, Tick) && ARuns(n)
  {
    FirstTick(2);
    RescheduleRest(k, S.Tick(k.sched));
    n := K.Next(k, Tick);
  }

  lemma ForkBValues()
    ensures [] + [3] == [3] && [] + [11] == [11]
    ensures map[2 := Thread(Running)][3 := Thread(Ready)] == map[2 := Thread(Running), 3 := Thread(Ready)]
    ensures map[10 := A([])][11 := B([], false)][10 := A([11])] == map[10 := A([11]), 11 := B([], false)]
  {}

  lemma ForkBStep(k: Kernel) returns (n: Kernel)
    requires ARuns(k)
    ensures n in Reached(k, FORK_B) && BReady(n)
  {
    ForkBValues();
    Pids();
    MachineShape(map[2 := Thread(Running)], [], [], 2, 1);
    ForkLeaves(k, 11, 3, 111, 2);
    Added(map[2 := Thread(Running)], [], [], 2, 1, 3);
    n := K.Next(k, FORK_B);
  }

  lemma YieldToBStep(k: Kernel) returns (n: Kernel)
    requires BReady(k)
    ensures n in Reached(k, Yield) && BRuns(n)
  {
    var m := map[2 := Thread(Running), 3 := Thread(Ready)];
    assert [3] + [] == [3] && [] + [2] == [2];
    MachineShape(m, [3], [], 2, 1);
    Handed(m, 3, [], [], 2, 1);
    assert m[2 := Thread(Ready)][3 := Thread(Running)] == map[2 := Thread(Ready), 3 := Thread(Running)];
    RescheduleRest(k, S.Yield(k.sched));
    n := K.Next(k, Yield);
  }

  lemma ExitBValues()
    ensures [2] + [] == [2] && [] + [3] == [3]
    ensures map[2 := Thread(Ready), 3 := Thread(Running)][3 := Thread(Terminated)][2 := Thread(Running)] == map[2 := Thread(Running), 3 := Thread(Terminated)]
    ensures map[10 := A([11]), 11 := B([], false)][11 := B([], true)] == map[10 := A([11]), 11 := B([], true)]
  {}

  lemma ExitBStep(k: Kernel) returns (n: Kernel)
    requires BRuns(k)
    ensures n in Reached(k, EXIT) && BGone(n)
  {
    ExitBValues();
    var m := map[2 := Thread(Ready), 3 := Thread(Running)];
    MachineShape(m, [2], [], 3, 1);
    ExitLeaves(k);
    Exited(m, 2, [], [], 3, 1);
    n := K.Next(k, EXIT);
  }

  lemma WaitStep(k: Kernel) returns (n: Kernel)
    requires BGone(k)
    ensures n in Reached(k, WAIT) && BReaped(n)
  {
    MachineShape(map[2 := Thread(Running), 3 := Thread(Terminated)], [], [3], 2, 1);
    WaitLeaves(k, 11);
    assert map[10 := A([11]), 11 := B([], true)][10 := A([])] - {11} == map[10 := A([])];
    assert {110, 111} - {111} == {110} && {0, 1, 2} - {2} == {0, 1};
    n := K.Next(k, WAIT);
  }

  lemma ForkCValues()
    ensures [2] + [4] == [2, 4] && [] + [12] == [12]
    ensures map[2 := Thread(Ready), 3 := Thread(Running)][4 := Thread(Ready)] == map[2 := Thread(Ready), 3 := Thread(Running), 4 := Thread(Ready)]
    ensures map[10 := A([11]), 11 := B([], false)][12 := C()][11 := B([12], false)] == map[10 := A([11]), 11 := B([12], false), 12 := C()]
  {}

  lemma ForkCStep(k: Kernel) returns (n: Kernel)
    requires BRuns(k)
    ensures n in Reached(k, FORK_C) && CReady(n)
  {
    ForkCValues();
    Pids();
    var m := map[2 := Thread(Ready), 3 := Thread(Running)];
    MachineShape(m, [2], [], 3, 1);
    ForkLeaves(k, 12, 4, 112, 3);
    Added(m, [2], [], 3, 1, 4);
    n := K.Next(k, FORK_C);
  }

  lemma OrphanValues()
    ensures [2] + [4] == [2, 4] && [] + [3] == [3]
    ensures map[2 := Thread(Ready), 3 := Thread(Running), 4 := Thread(Ready)][3 := Thread(Terminated)][2 := Thread(Running)] == map[2 := Thread(Running), 3 := Thread(Terminated), 4 := Thread(Ready)]
    ensures map[10 := A([11]), 11 := B([12], false), 12 := C()][11 := B([12], true)] == map[10 := A([11]), 11 := B([12], true), 12 := C()]
  {}

  lemma OrphanStep(k: Kernel) returns (n: Kernel)
    requires CReady(k)
    ensures n in Reached(k, EXIT) && COrphaned(n)
  {
    OrphanValues();
    var m := map[2 := Thread(Ready), 3 := Thread(Running), 4 := Thread(Ready)];
    MachineShape(m, [2, 4], [], 3, 1);
    ExitLeaves(k);
    Exited(m, 2, [4], [], 3, 1);
    n := K.Next(k, EXIT);
  }

  lemma CollectParentValues()
    ensures map[10 := A([11]), 11 := B([12], true), 12 := C()][10 := A([])] - {11} == map[10 := A([]), 12 := C()]
    ensures {110, 111, 112} - {111} == {110, 112} && {0, 1, 2, 3} - {2} == {0, 1, 3}
  {}

  lemma CollectParentStep(k: Kernel) returns (n: Kernel)
    requires COrphaned(k)
    ensures n in Reached(k, WAIT) && BCollected(n)
  {
    CollectParentValues();
    MachineShape(map[2 := Thread(Running), 3 := Thread(Terminated), 4 := Thread(Ready)], [4], [3], 2, 1);
    WaitLeaves(k, 11);
    n := K.Next(k, WAIT);
  }

  lemma YieldToCValues()
    ensures [4] + [] == [4] && [] + [2] == [2]
    ensures map[2 := Thread(Running), 3 := Thread(Terminated), 4 := Thread(Ready)][2 := Thread(Ready)][4 := Thread(Running)] == map[2 := Thread(Ready), 3 := Thread(Terminated), 4 := Thread(Running)]
  {}

  lemma YieldToCStep(k: Kernel) returns (n: Kernel)
    requires BCollected(k)
    ensures n in Reached(k, Yield) && CRuns(n)
  {
    YieldToCValues();
    var m := map[2 := Thread(Running), 3 := Thread(Terminated), 4 := Thread(Ready)];
    MachineShape(m, [4], [3], 2, 1);
    Handed(m, 4, [], [3], 2, 1);
    RescheduleRest(k, S.Yield(k.sched));
    n := K.Next(k, Yield);
  }

  // ---- The runs ---------------------------------------------------------------------------------------

  /** The run can be taken from here, and ends having read a freed process. */
  ghost predicate Leads(k: Kernel, run: seq<K.Step>) { R.Feasible(k, run) && R.After(k, run).dangling }

  lemma LeadsOn(k: Kernel, e: K.Step, n: Kernel, rest: seq<K.Step>, run: seq<K.Step>)
    requires n in Reached(k, e) && Leads(n, rest) && run == [e] + rest
    ensures Leads(k, run)
  {
    assert run[1..] == rest;
  }

  lemma LeadsEnd(k: Kernel)
    requires k.dangling
    ensures Leads(k, [])
  {}

  /** A sleeps, and the reaper runs. */
  lemma SleepStep(k: Kernel) returns (n: Kernel)
    requires BReaped(k)
    ensures n in Reached(k, SleepOn(CHANNEL)) && Draining(n)
  {
    var m := map[2 := Thread(Running), 3 := Thread(Terminated)];
    MachineShape(m, [], [3], 2, 1);
    Slept(m, [3], 2, 1, CHANNEL);
    RescheduleRest(k, S.Block(k.sched, CHANNEL));
    n := K.Next(k, SleepOn(CHANNEL));
  }

  ghost predicate Draining(a: Kernel) {
    && Shape(a.sched) && a.sched.current == a.sched.reaper && a.sched.dead == [3] && a.sched.dying == []
    && a.procs == map[10 := A([])] && a.owner == map[2 := 10, 3 := 11] && a.born == map[2 := 0, 3 := 1]
  }

  /** It drains the dead list and frees B's thread. */
  lemma ReaperTail(a: Kernel)
    requires Draining(a)
    ensures Leads(a, [Collect, Free])
  {
    var b := K.Next(a, Collect);
    assert b.sched.dying == [] + [3] == [3];
    assert Deleted(b, 11, 1);
    var c := K.Next(b, Free);
    LeadsEnd(c);
    LeadsOn(b, Free, c, [], [Free]);
    LeadsOn(a, Collect, b, [Free], [Collect, Free]);
  }

  // From boot until B runs, and from there until C runs as an orphan.

  lemma ToB(rest: seq<K.Step>)
    requires forall k :: BRuns(k) ==> Leads(k, rest)
    ensures Leads(BootKernel(0, 1, ROOT), [SPAWN, Tick, FORK_B, Yield] + rest)
  {
    BootIsBooted();
    var k0 := BootKernel(0, 1, ROOT);
    var k1 := SpawnStep(k0);
    var k2 := TickStep(k1);
    var k3 := ForkBStep(k2);
    var k4 := YieldToBStep(k3);
    FourSteps(k0, k1, k2, k3, k4, SPAWN, Tick, FORK_B, Yield, rest);
  }

  lemma ToC(k0: Kernel, rest: seq<K.Step>)
    requires BRuns(k0) && forall k :: CRuns(k) ==> Leads(k, rest)
    ensures Leads(k0, [FORK_C, EXIT, WAIT, Yield] + rest)
  {
    var k1 := ForkCStep(k0);
    var k2 := OrphanStep(k1);
    var k3 := CollectParentStep(k2);
    var k4 := YieldToCStep(k3);
    FourSteps(k0, k1, k2, k3, k4, FORK_C, EXIT, WAIT, Yield, rest);
  }

  lemma FourSteps(k0: Kernel, k1: Kernel, k2: Kernel, k3: Kernel, k4: Kernel, a: K.Step, b: K.Step, c: K.Step, d: K.Step, rest: seq<K.Step>)
    requires k1 in Reached(k0, a) && k2 in Reached(k1, b) && k3 in Reached(k2, c) && k4 in Reached(k3, d) && Leads(k4, rest)
    ensures Leads(k0, [a, b, c, d] + rest)
  {
    var tail := [c, d] + rest;
    TwoSteps(k2, k3, k4, c, d, rest, tail);
    TwoSteps(k0, k1, k2, a, b, tail, [a, b, c, d] + rest) by { Prefixed(a, b, c, d, rest); }
  }

  lemma Prefixed(a: K.Step, b: K.Step, c: K.Step, d: K.Step, rest: seq<K.Step>)
    ensures [a, b, c, d] + rest == [a, b] + ([c, d] + rest)
  {}

  lemma Headed(a: K.Step, b: K.Step, rest: seq<K.Step>)
    ensures [a, b] + rest == [a] + ([b] + rest)
  {}

  lemma TwoSteps(k0: Kernel, k1: Kernel, k2: Kernel, a: K.Step, b: K.Step, rest: seq<K.Step>, run: seq<K.Step>)
    requires k1 in Reached(k0, a) && k2 in Reached(k1, b) && Leads(k2, rest) && run == [a, b] + rest
    ensures Leads(k0, run)
  {
    var tail := [b] + rest;
    LeadsOn(k1, b, k2, rest, tail);
    LeadsOn(k0, a, k1, tail, run) by { Headed(a, b, rest); }
  }

  lemma ReaperFromB(k0: Kernel)
    requires BRuns(k0)
    ensures Leads(k0, [EXIT, WAIT, SleepOn(CHANNEL), Collect, Free])
  {
    var k1 := ExitBStep(k0);
    var k2 := WaitStep(k1);
    var k3 := SleepStep(k2);
    ReaperTail(k3);
    LeadsOn(k2, SleepOn(CHANNEL), k3, [Collect, Free], [SleepOn(CHANNEL), Collect, Free]);
    TwoSteps(k0, k1, k2, EXIT, WAIT, [SleepOn(CHANNEL), Collect, Free], [EXIT, WAIT, SleepOn(CHANNEL), Collect, Free]);
  }

  /** The reaper frees the thread of a process that has been collected, and reads the freed process. */
  lemma ReaperReadsFreedProcess()
    ensures Leads(BootKernel(0, 1, ROOT), [SPAWN, Tick, FORK_B, Yield, EXIT, WAIT, SleepOn(CHANNEL), Collect, Free])
  {
    var rest := [EXIT, WAIT, SleepOn(CHANNEL), Collect, Free];
    forall k | BRuns(k) ensures Leads(k, rest) { ReaperFromB(k); }
    ToB(rest);
    assert [SPAWN, Tick, FORK_B, Yield] + rest == [SPAWN, Tick, FORK_B, Yield, EXIT, WAIT, SleepOn(CHANNEL), Collect, Free];
  }

  /** In C, an exit or a getppid reads the parent. */
  lemma OrphanReads(k: Kernel, last: K.Step)
    requires CRuns(k) && (last == EXIT || last == ParentCall)
    ensures Leads(k, [last])
  {
    MachineShape(map[2 := Thread(Ready), 3 := Thread(Terminated), 4 := Thread(Running)], [2], [3], 4, 1);
    ExitLeaves(k);
    var n := K.Next(k, last);
    assert ParentDeleted(k, 12);
    LeadsEnd(n);
    LeadsOn(k, last, n, [], [last]);
  }

  lemma OrphanRun(last: K.Step)
    requires last == EXIT || last == ParentCall
    ensures Leads(BootKernel(0, 1, ROOT), [SPAWN, Tick, FORK_B, Yield, FORK_C, EXIT, WAIT, Yield, last])
  {
    var rest := [FORK_C, EXIT, WAIT, Yield, last];
    assert rest == [FORK_C, EXIT, WAIT, Yield] + [last];
    forall k | CRuns(k) ensures Leads(k, [last]) { OrphanReads(k, last); }
    forall k | BRuns(k) ensures Leads(k, rest) { ToC(k, [last]); }
    ToB(rest);
    assert [SPAWN, Tick, FORK_B, Yield] + rest == [SPAWN, Tick, FORK_B, Yield, FORK_C, EXIT, WAIT, Yield, last];
  }

  /** A process whose parent has been collected exits, and reads the freed parent. */
  lemma ExitReadsFreedParent()
    ensures Leads(BootKernel(0, 1, ROOT), [SPAWN, Tick, FORK_B, Yield, FORK_C, EXIT, WAIT, Yield, EXIT])
  {
    OrphanRun(EXIT);
  }

  /** Or it calls getppid, which reads the freed parent and answers with what it finds there. */
  lemma GetppidReadsFreedParent()
    ensures Leads(BootKernel(0, 1, ROOT), [SPAWN, Tick, FORK_B, Yield, FORK_C, EXIT, WAIT, Yield, ParentCall])
  {
    OrphanRun(ParentCall);
  }
}
