/** Processes on top of the scheduler: fork, exec, exit, waitpid, getppid and the address space each of
    them leaves loaded, as functions on a value.  Two flags record what must not happen.  `faulted` is set
    by a load of a destroyed address space, by the destruction of the loaded one, and when a switch finds no
    process for the next thread or waitpid none for a child.  `dangling` is set when a process that has been
    deleted is read through a pointer that nobody keeps valid: a process's pointer to its parent, which exit
    and getppid read, and a dead thread's pointer to its process, which the reaper reads.  All other code
    reads the process of the thread that runs. */
module LifecycleModel {
  import S = MlfqModel
  import opened MlfqModel

  type Root = nat

  datatype Process = Process(
    pid: nat,
    parent: Addr,
    children: seq<Addr>,
    zombie: bool,
    status: int,
    space: Root,
    serial: nat,
    parentSerial: nat)

  datatype Event =
    | NoChild
    | NotYet
    | RecheckFailed
    | Collected(serial: nat, pid: nat, wstatus: int)

  /** `owner` gives a user thread its process; kernel threads have none.  `awaiting` holds the
      threads inside waitpid, past the check that made them block.  Every process gets a serial number of
      its own, since addresses and pids are used again: `born` is that of the process a thread was made
      for, `reaped` those of deleted processes.  `exited` records the status each process exited with, by
      serial number, and `events` what waitpid calls returned. */
  datatype Kernel = Kernel(
    sched: Sched,
    procs: map<Addr, Process>,
    owner: map<Tid, Addr>,
    born: map<Tid, nat>,
    awaiting: map<Tid, Addr>,
    spaces: set<Root>,
    kernelRoot: Root,
    cr3: Root,
    pids: set<nat>,
    serials: nat,
    reaped: set<nat>,
    exited: map<nat, int>,
    events: seq<Event>,
    faulted: bool,
    dangling: bool)

  const MAX_PID: nat := 32768

  ghost predicate Live(k: Kernel, root: Root) { root in k.spaces || root == k.kernelRoot }

  /** Load the page-table root of an address space. */
  ghost function LoadRoot(k: Kernel, root: Root): (r: Kernel)
    ensures r.dangling == k.dangling
  {
    k.(cr3 := root, faulted := k.faulted || !Live(k, root))
  }

  /** Free an address space; it must not be the loaded one. */
  ghost function DestroySpace(k: Kernel, root: Root): (r: Kernel)
    ensures r.dangling == k.dangling
  {
    k.(spaces := k.spaces - {root}, faulted := k.faulted || root !in k.spaces || root == k.cr3)
  }

  /** The root a switch to thread `t` loads. */
  ghost function RootOf(k: Kernel, t: Tid): Root {
    if t !in k.owner then k.kernelRoot
    else if k.owner[t] in k.procs then k.procs[k.owner[t]].space else k.cr3
  }

  ghost predicate BadSwitch(k: Kernel, t: Tid) {
    (t in k.owner && k.owner[t] !in k.procs) || !Live(k, RootOf(k, t))
  }

  /** The scheduler moved to `s`; if the CPU changed hands, load the new thread's address space. */
  ghost function Reschedule(k: Kernel, s: Sched): (r: Kernel)
    ensures r.dangling == k.dangling
  {
    if s.current == k.sched.current then k.(sched := s)
    else k.(sched := s, cr3 := RootOf(k, s.current), faulted := k.faulted || BadSwitch(k, s.current))
  }

  /** The process that was at `a` under serial number `n` is no longer there. */
  ghost predicate Deleted(k: Kernel, a: Addr, n: nat) { a !in k.procs || k.procs[a].serial != n }

  /** The parent of `p` has been deleted. */
  ghost predicate ParentDeleted(k: Kernel, p: Addr)
    requires p in k.procs
  {
    k.procs[p].parent != NULL && Deleted(k, k.procs[p].parent, k.procs[p].parentSerial)
  }

  // ---- System calls -----------------------------------------------------------------------------

  ghost predicate Calling(k: Kernel) {
    k.sched.current in k.owner && k.sched.current !in k.awaiting && k.owner[k.sched.current] in k.procs
  }

  ghost function Caller(k: Kernel): Addr
    requires k.sched.current in k.owner
  {
    k.owner[k.sched.current]
  }

  /** The smallest process id not in use, or MAX_PID if all are. */
  ghost function FreePid(pids: set<nat>, from: nat): (pid: nat)
    requires from <= MAX_PID
    ensures from <= pid <= MAX_PID && (pid < MAX_PID ==> pid !in pids) && forall q: nat :: from <= q < pid ==> q in pids
    decreases MAX_PID - from
  {
    if from == MAX_PID || from !in pids then from else FreePid(pids, from + 1)
  }

  /** Create a process at address `a` with one thread `t` at the top level. */
  ghost function NewProcess(k: Kernel, a: Addr, t: Tid, root: Root, parent: Addr): (r: Kernel)
    requires Shape(k.sched)
    ensures r.dangling == k.dangling
  {
    var pid := FreePid(k.pids, 0);
    var above := if parent in k.procs then k.procs[parent].serial else 0;
    k.(procs := k.procs[a := Process(pid, parent, [], false, 0, root, k.serials, above)],
       spaces := k.spaces + {root},
       pids := k.pids + {pid},
       serials := k.serials + 1,
       owner := k.owner[t := a],
       born := k.born[t := k.serials],
       sched := S.AddThread(k.sched, t, 0))
  }

  /** Fork; without memory for the address space, the process, its table or its thread, what was made so
      far is undone. */
  ghost function Fork(k: Kernel, a: Addr, t: Tid, root: Root, memory: bool): (r: Kernel)
    requires Shape(k.sched) && Calling(k)
    ensures r.dangling == k.dangling
  {
    if FreePid(k.pids, 0) == MAX_PID || !memory then k
    else
      var p := Caller(k);
      var n := NewProcess(k, a, t, root, p);
      n.(procs := n.procs[p := n.procs[p].(children := n.procs[p].children + [a])])
  }

  /** A fork that succeeds, field by field. */
  lemma ForkIs(k: Kernel, a: Addr, t: Tid, root: Root, pid: nat)
    requires Shape(k.sched) && Calling(k) && a !in k.procs && FreePid(k.pids, 0) == pid < MAX_PID
    ensures var p := Caller(k);
      var child := Process(pid, p, [], false, 0, root, k.serials, k.procs[p].serial);
      Fork(k, a, t, root, true) ==
        k.(procs := k.procs[a := child][p := k.procs[p].(children := k.procs[p].children + [a])],
           spaces := k.spaces + {root}, pids := k.pids + {pid}, serials := k.serials + 1,
           owner := k.owner[t := a], born := k.born[t := k.serials], sched := S.AddThread(k.sched, t, 0))
  {}

  /** execve with a loader that succeeds, or fails and puts the old space and root back. */
  ghost function Exec(k: Kernel, root: Root, loads: bool): (r: Kernel)
    requires Calling(k)
    ensures r.dangling == k.dangling
  {
    var p := Caller(k);
    var before := k.procs[p].space;
    var n := LoadRoot(k.(spaces := k.spaces + {root}, procs := k.procs[p := k.procs[p].(space := root)]), root);
    if loads then DestroySpace(n, before)
    else DestroySpace(LoadRoot(n.(procs := n.procs[p := n.procs[p].(space := before)]), k.cr3), root)
  }

  ghost function MarkZombie(k: Kernel, p: Addr, status: int): (r: Kernel)
    requires p in k.procs
    ensures r.dangling == k.dangling
  {
    k.(procs := k.procs[p := k.procs[p].(zombie := true, status := status)],
       exited := k.exited[k.procs[p].serial := status])
  }

  ghost function Exit(k: Kernel, status: int): Kernel
    requires Shape(k.sched) && Calling(k)
  {
    var p := Caller(k);
    var z := MarkZombie(k, p, status).(dangling := k.dangling || ParentDeleted(k, p));
    var w := if k.procs[p].parent != NULL then z.(sched := S.Wake(z.sched, p, false)) else z;
    Reschedule(w, S.Terminate(w.sched))
  }

  /** getppid reads the parent. */
  ghost function ParentPid(k: Kernel): Kernel
    requires Calling(k)
  {
    k.(dangling := k.dangling || ParentDeleted(k, Caller(k)))
  }

  ghost predicate AllAllocated(k: Kernel, children: seq<Addr>) {
    forall i :: 0 <= i < |children| ==> children[i] in k.procs
  }

  /** The first child with the given pid, NULL if none; pid 0 matches any child. */
  ghost function FindChild(k: Kernel, children: seq<Addr>, pid: nat): Addr
    requires AllAllocated(k, children)
  {
    if children == [] then NULL
    else if pid == 0 || k.procs[children[0]].pid == pid then children[0]
    else FindChild(k, children[1..], pid)
  }

  ghost predicate Matches(k: Kernel, a: Addr, pid: nat)
    requires a in k.procs
  {
    pid == 0 || k.procs[a].pid == pid
  }

  /** The child at place `i` matches and none before it does. */
  ghost predicate FirstMatch(k: Kernel, children: seq<Addr>, pid: nat, i: nat)
    requires AllAllocated(k, children)
  {
    i < |children| && Matches(k, children[i], pid) && forall j :: 0 <= j < i ==> !Matches(k, children[j], pid)
  }

  /** The child found is the first that matches, and none is found only if none does. */
  lemma {:induction false} FindsFirst(k: Kernel, children: seq<Addr>, pid: nat)
    requires AllAllocated(k, children)
    ensures forall i: nat :: FirstMatch(k, children, pid, i) ==> FindChild(k, children, pid) == children[i]
    ensures (exists i: nat :: FirstMatch(k, children, pid, i)) || (FindChild(k, children, pid) == NULL && forall a :: a in children ==> !Matches(k, a, pid))
  {
    if children != [] {
      FindsFirst(k, children[1..], pid);
      if Matches(k, children[0], pid) {
        assert FirstMatch(k, children, pid, 0);
      } else {
        forall i: nat | FirstMatch(k, children, pid, i) ensures i > 0 && FirstMatch(k, children[1..], pid, i - 1) {
          assert forall j :: 0 <= j < i - 1 ==> children[1..][j] == children[j + 1];
        }
        if i: nat :| FirstMatch(k, children[1..], pid, i) {
          assert forall j :: 0 < j < i + 1 ==> children[j] == children[1..][j - 1];
          assert FirstMatch(k, children, pid, i + 1);
        }
      }
    }
  }

  ghost function Without(children: seq<Addr>, c: Addr): seq<Addr> {
    if children == [] then [] else if children[0] == c then children[1..] else [children[0]] + Without(children[1..], c)
  }

  /** Linking a node and unlinking it again leaves the list as it was; so does unlinking a node that is not in it. */
  lemma {:induction false} WithoutUnlinked(children: seq<Addr>, c: Addr)
    requires c !in children
    ensures Without(children, c) == children && Without(children + [c], c) == children
  {
    if children != [] {
      WithoutUnlinked(children[1..], c);
      assert (children + [c])[1..] == children[1..] + [c];
    }
  }

  /** Exit code as waitpid reports it: the low eight bits, shifted into bits 8 to 15. */
  function WaitStatus(status: int): (w: int)
    ensures w % 256 == 0 && w / 256 == status % 256
  {
    status % 256 * 256
  }

  /** The end of waitpid: take the child off the list and free it. */
  ghost function Reap(k: Kernel, p: Addr, c: Addr): (r: Kernel)
    ensures r.dangling == k.dangling
  {
    if p !in k.procs || c !in k.procs then k.(faulted := true)
    else
      var child := k.procs[c];
      var n := k.(procs := k.procs[p := k.procs[p].(children := Without(k.procs[p].children, c))] - {c},
                  reaped := k.reaped + {child.serial},
                  pids := if child.pid < 2 || child.pid >= MAX_PID then k.pids else k.pids - {child.pid},
                  events := k.events + [Collected(child.serial, child.pid, WaitStatus(child.status))]);
      DestroySpace(n, child.space)
  }

  ghost function WaitPid(k: Kernel, pid: nat, noHang: bool): (r: Kernel)
    requires Shape(k.sched) && Calling(k)
    ensures r.dangling == k.dangling
  {
    var p := Caller(k);
    if !AllAllocated(k, k.procs[p].children) then k.(faulted := true) else
    var c := FindChild(k, k.procs[p].children, pid);
    if c == NULL || c !in k.procs then k.(events := k.events + [NoChild])
    else if k.procs[c].zombie then Reap(k, p, c)
    else if noHang then k.(events := k.events + [NotYet])
    else Reschedule(k.(awaiting := k.awaiting[k.sched.current := c]), S.Block(k.sched, c))
  }

  /** What a waitpid caller does when it next runs after having blocked. */
  ghost function WaitResume(k: Kernel): (r: Kernel)
    requires k.sched.current in k.awaiting && k.sched.current in k.owner
    ensures r.dangling == k.dangling
  {
    var c := k.awaiting[k.sched.current];
    var n := k.(awaiting := k.awaiting - {k.sched.current});
    if c !in k.procs then n.(faulted := true)
    else if !k.procs[c].zombie then n.(events := k.events + [RecheckFailed])
    else Reap(n, Caller(k), c)
  }

  /** The reaper frees the first thread of its private list, having read the process of that thread. */
  ghost function FreeThread(k: Kernel): Kernel
    requires k.sched.dying != []
  {
    var t := k.sched.dying[0];
    k.(sched := S.Free(k.sched), owner := k.owner - {t}, born := k.born - {t},
       dangling := k.dangling || (t in k.owner && (t !in k.born || Deleted(k, k.owner[t], k.born[t]))))
  }

  // ---- Steps --------------------------------------------------------------------------------------

  datatype Step =
    | Tick
    | Yield
    | SleepOn(channel: Addr)
    | WakeOn(channel: Addr, all: bool)
    | Collect
    | Free
    | Spawn(a: Addr, t: Tid, root: Root)
    | ForkCall(a: Addr, t: Tid, root: Root, memory: bool)
    | ExecCall(root: Root, loads: bool)
    | ExitCall(status: int)
    | WaitCall(pid: nat, noHang: bool)
    | Resume
    | ParentCall

  /** A newly allocated object's address is nobody's wait channel; an address may be reused. */
  ghost predicate NewAddress(k: Kernel, a: Addr) {
    a != NULL && a !in k.procs &&
    forall t :: t in k.sched.threads && k.sched.threads[t].state == Blocked ==> k.sched.threads[t].channel != a
  }

  ghost predicate NewSpace(k: Kernel, root: Root) { root !in k.spaces && root != k.kernelRoot }

  /** When the kernel can take a step.  Sleeping and waking outside waitpid and exit use channels
      that are not process objects; only a thread that owns a process makes process calls; each
      process has one thread; kernel code that is not inside waitpid may sleep or yield. */
  ghost predicate Enabled(k: Kernel, e: Step) {
    match e
    case Tick => true
    case Yield => k.sched.current !in k.awaiting
    case SleepOn(channel) => k.sched.current != k.sched.idle && k.sched.current !in k.awaiting && channel !in k.procs
    case WakeOn(channel, _) => channel !in k.procs
    case Collect => k.sched.current == k.sched.reaper
    case Free => k.sched.current == k.sched.reaper && k.sched.dying != []
    case Spawn(a, t, root) =>
      k.sched.current !in k.owner && NewAddress(k, a) && NewSpace(k, root) && t !in k.sched.threads && FreePid(k.pids, 0) < MAX_PID
    case ForkCall(a, t, root, _) => Calling(k) && NewAddress(k, a) && NewSpace(k, root) && t !in k.sched.threads
    case ExecCall(root, _) => Calling(k) && NewSpace(k, root)
    case ExitCall(_) => Calling(k)
    case WaitCall(_, _) => Calling(k)
    case ParentCall => Calling(k)
    case Resume => k.sched.current in k.awaiting && k.sched.current in k.owner
  }

  ghost function Next(k: Kernel, e: Step): Kernel
    requires Shape(k.sched) && Enabled(k, e)
  {
    match e
    case Tick => Reschedule(k, S.Tick(k.sched))
    case Yield => Reschedule(k, S.Yield(k.sched))
    case SleepOn(channel) => Reschedule(k, S.Block(k.sched, channel))
    case WakeOn(channel, all) => k.(sched := S.Wake(k.sched, channel, all))
    case Collect => k.(sched := S.Collect(k.sched))
    case Free => FreeThread(k)
    case Spawn(a, t, root) => NewProcess(k, a, t, root, NULL)
    case ForkCall(a, t, root, memory) => Fork(k, a, t, root, memory)
    case ExecCall(root, loads) => Exec(k, root, loads)
    case ExitCall(status) => Exit(k, status)
    case WaitCall(pid, noHang) => WaitPid(k, pid, noHang)
    case Resume => WaitResume(k)
    case ParentCall => ParentPid(k)
  }

  /** The kernel after Scheduler::Start: no process, the kernel's own page tables loaded. */
  ghost function BootKernel(idle: Tid, reaper: Tid, kernelRoot: Root): Kernel
    requires idle != reaper
  {
    Kernel(Boot(idle, reaper), map[], map[], map[], map[], {}, kernelRoot, kernelRoot, {0}, 0, {}, map[], [], false, false)
  }
}
