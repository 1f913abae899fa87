/** Safety of process lifecycles over every run: no destroyed address space is loaded or owned, scheduling
    and waitpid reach only for allocated processes, no exit wake-up is missed, and every exit status is
    collected at most once. */
module Lifecycle {
  import S = MlfqModel
  import opened MlfqInvariants
  import opened MlfqStatus
  import opened LifecycleModel

  type Addr = S.Addr
  type Tid = S.Tid

  // ---- Invariant ------------------------------------------------------------------------------

  ghost predicate Owned(k: Kernel, t: Tid) { t in k.owner && t in k.sched.threads }

  ghost predicate Alive(k: Kernel, t: Tid) { Owned(k, t) && StatusIn(k.sched, t) != Gone }

  /** The process that was at `a` under serial number `n` is still there, or has been reaped. */
  ghost predicate Linked(k: Kernel, a: Addr, n: nat) { n in k.reaped || !Deleted(k, a, n) }

  /** A user thread that has not exited belongs to the process it was made for, which is allocated and has
      not exited; the process of any other thread is allocated or has been reaped. */
  ghost predicate ThreadOk(k: Kernel, t: Tid) {
    t in k.owner ==>
      && t in k.sched.threads && t != k.sched.idle && t != k.sched.reaper
      && t in k.born && Linked(k, k.owner[t], k.born[t])
      && (Alive(k, t) ==> k.owner[t] in k.procs && !k.procs[k.owner[t]].zombie)
  }

  /** Each process has one thread. */
  ghost predicate SoleThread(k: Kernel, t: Tid, u: Tid) {
    Alive(k, t) && Alive(k, u) && k.owner[t] == k.owner[u] ==> t == u
  }

  /** A thread inside waitpid waits for an allocated child of its own process: asleep on it while
      the child runs, awake once the child is a zombie. */
  ghost predicate AwaitOk(k: Kernel, t: Tid) {
    t in k.awaiting ==>
      && Alive(k, t) && k.owner[t] in k.procs
      && var c := k.awaiting[t];
      && c in k.procs && c in k.procs[k.owner[t]].children
      && StatusIn(k.sched, t) == if k.procs[c].zombie then Active else Sleeping(c)
  }

  /** Whoever sleeps on a process is inside waitpid for it. */
  ghost predicate SleepOk(k: Kernel, t: Tid) {
    t in k.sched.threads && t != k.sched.idle && StatusIn(k.sched, t).Sleeping? && StatusIn(k.sched, t).channel in k.procs ==>
      t in k.awaiting && k.awaiting[t] == StatusIn(k.sched, t).channel
  }

  ghost predicate ProcessOk(k: Kernel, a: Addr) {
    a in k.procs ==>
      var p := k.procs[a];
      && a != S.NULL && p.space in k.spaces && p.pid in k.pids && p.serial < k.serials && p.serial !in k.reaped
      && (p.parent != S.NULL ==> Linked(k, p.parent, p.parentSerial))
      && (if p.zombie then p.serial in k.exited && k.exited[p.serial] == p.status else p.serial !in k.exited)
  }

  /** Children are allocated, listed once, and point back. */
  ghost predicate ChildrenOk(k: Kernel, a: Addr) {
    a in k.procs ==>
      var ch := k.procs[a].children;
      && (forall i :: 0 <= i < |ch| ==> ch[i] in k.procs && k.procs[ch[i]].parent == a)
      && (forall i, j :: 0 <= i < j < |ch| ==> ch[i] != ch[j])
  }

  /** Processes share neither address space, nor process id, nor serial number. */
  ghost predicate Separate(k: Kernel, a: Addr, b: Addr) {
    a in k.procs && b in k.procs && a != b ==>
      && k.procs[a].space != k.procs[b].space
      && k.procs[a].pid != k.procs[b].pid
      && k.procs[a].serial != k.procs[b].serial
  }

  ghost predicate IsCollected(k: Kernel, i: nat) { i < |k.events| && k.events[i].Collected? }

  /** A collected status is the one its process exited with, and that process is gone for good. */
  ghost predicate EventOk(k: Kernel, i: nat) {
    && (i < |k.events| ==> k.events[i] != RecheckFailed)
    && (IsCollected(k, i) ==>
          && k.events[i].serial in k.exited
          && k.events[i].wstatus == WaitStatus(k.exited[k.events[i].serial])
          && forall a :: a in k.procs ==> k.procs[a].serial != k.events[i].serial)
  }

  ghost predicate Once(k: Kernel, i: nat, j: nat) {
    i < j && IsCollected(k, i) && IsCollected(k, j) ==> k.events[i].serial != k.events[j].serial
  }

  ghost predicate Zombie(k: Kernel, a: Addr, n: nat) { a in k.procs && k.procs[a].zombie && k.procs[a].serial == n }

  /** An exited process is still a zombie, or its status has been collected. */
  ghost predicate ExitOk(k: Kernel, n: nat) {
    n in k.exited ==>
      && n < k.serials
      && ((exists a :: Zombie(k, a, n)) || (exists i: nat :: IsCollected(k, i) && k.events[i].serial == n))
  }

  /** Everything but what is loaded. */
  ghost predicate Core(k: Kernel) {
    && S.Inv(k.sched)
    && k.kernelRoot !in k.spaces && 0 in k.pids && (k.procs != map[] ==> 1 in k.pids)
    && (forall n :: n in k.reaped ==> n < k.serials)
    && (forall t :: ThreadOk(k, t))
    && (forall t, u :: SoleThread(k, t, u))
    && (forall t :: AwaitOk(k, t))
    && (forall t :: SleepOk(k, t))
    && (forall a :: ProcessOk(k, a))
    && (forall a :: ChildrenOk(k, a))
    && (forall a, b :: Separate(k, a, b))
    && (forall i :: EventOk(k, i))
    && (forall i, j :: Once(k, i, j))
    && (forall n :: ExitOk(k, n))
  }

  /** CR3 holds the root of the running thread's process, or the kernel's for a kernel thread. */
  ghost predicate Loaded(k: Kernel) {
    var t := k.sched.current;
    if t in k.owner then k.owner[t] in k.procs && k.cr3 == k.procs[k.owner[t]].space
    else k.cr3 == k.kernelRoot
  }

  ghost predicate KInv(k: Kernel) { Core(k) && Loaded(k) && !k.faulted }

  // ---- Steps that only schedule ---------------------------------------------------------------

  lemma CurrentAlive(k: Kernel)
    requires S.Inv(k.sched)
    ensures k.sched.current in k.owner ==> Alive(k, k.sched.current) && StatusIn(k.sched, k.sched.current) == Active
  {}

  /** Switching loads exactly the space of the thread switched to. */
  lemma RescheduleKeeps(k: Kernel, s: S.Sched)
    requires Loaded(k) && !k.faulted && Core(k.(sched := s))
    ensures KInv(Reschedule(k, s))
  {
    var n := k.(sched := s);
    CurrentAlive(n);
    assert ThreadOk(n, s.current);
    var r := Reschedule(k, s);
    if s.current in k.owner { assert ProcessOk(n, k.owner[s.current]); }
    if s.current != k.sched.current {
      assert r == n.(cr3 := r.cr3);
      CoreIgnoresCr3(n, r);
    }
  }

  lemma CoreIgnoresCr3(k: Kernel, r: Kernel)
    requires Core(k) && r == k.(cr3 := r.cr3, dangling := r.dangling)
    ensures Core(r)
  {
    forall t ensures ThreadOk(r, t) && AwaitOk(r, t) && SleepOk(r, t) { assert ThreadOk(k, t) && AwaitOk(k, t) && SleepOk(k, t); }
    forall t, u ensures SoleThread(r, t, u) { assert SoleThread(k, t, u); }
    TablesCarry(k, r);
  }

  /** The parts that look at processes and the log only. */
  ghost predicate Tables(k: Kernel) {
    && (forall a :: ProcessOk(k, a))
    && (forall a :: ChildrenOk(k, a))
    && (forall a, b :: Separate(k, a, b))
    && (forall i :: EventOk(k, i))
    && (forall i, j :: Once(k, i, j))
    && (forall n :: ExitOk(k, n))
  }

  lemma TablesCarry(k: Kernel, r: Kernel)
    requires Tables(k)
    requires r.procs == k.procs && r.spaces == k.spaces && r.pids == k.pids && r.serials == k.serials && r.reaped == k.reaped
    requires r.exited == k.exited && r.events == k.events
    ensures Tables(r)
  {
    forall a ensures ProcessOk(r, a) && ChildrenOk(r, a) { assert ProcessOk(k, a) && ChildrenOk(k, a); }
    forall a, b ensures Separate(r, a, b) { assert Separate(k, a, b); }
    forall i: nat ensures EventOk(r, i) { assert EventOk(k, i); assert IsCollected(k, i) <==> IsCollected(r, i); }
    forall i: nat, j: nat ensures Once(r, i, j) {
      assert Once(k, i, j);
      assert IsCollected(k, i) <==> IsCollected(r, i);
      assert IsCollected(k, j) <==> IsCollected(r, j);
    }
    forall n: nat ensures ExitOk(r, n) {
      assert ExitOk(k, n);
      if n in k.exited {
        if a :| Zombie(k, a, n) { assert Zombie(r, a, n); }
        if i: nat :| IsCollected(k, i) && k.events[i].serial == n { assert IsCollected(r, i) && r.events[i].serial == n; }
      }
    }
  }

  /** A scheduler change that alters no thread's status keeps everything. */
  lemma SameStatusKeeps(k: Kernel, s: S.Sched)
    requires Core(k) && S.Inv(s) && SameStatus(s, k.sched)
    ensures Core(k.(sched := s))
  {
    var n := k.(sched := s);
    forall t ensures ThreadOk(n, t) && AwaitOk(n, t) && SleepOk(n, t) { assert ThreadOk(k, t) && AwaitOk(k, t) && SleepOk(k, t); }
    forall t, u ensures SoleThread(n, t, u) { assert SoleThread(k, t, u); }
    TablesCarry(k, n);
  }

  /** So does one that puts a thread outside waitpid to sleep on something that is no process. */
  lemma SleepKeeps(k: Kernel, s: S.Sched, x: Tid, channel: Addr)
    requires Core(k) && S.Inv(s) && OneStatus(s, k.sched, x, Sleeping(channel))
    requires x !in k.awaiting && channel !in k.procs && StatusIn(k.sched, x) == Active
    ensures Core(k.(sched := s))
  {
    var n := k.(sched := s);
    forall t ensures ThreadOk(n, t) && AwaitOk(n, t) && SleepOk(n, t) {
      assert ThreadOk(k, t) && AwaitOk(k, t) && SleepOk(k, t);
    }
    forall t, u ensures SoleThread(n, t, u) { assert SoleThread(k, t, u); }
    TablesCarry(k, n);
  }

  lemma WakeKeeps(k: Kernel, channel: Addr, all: bool)
    requires Core(k) && channel !in k.procs
    ensures S.Shape(k.sched) && Core(k.(sched := S.Wake(k.sched, channel, all))) && S.Wake(k.sched, channel, all).current == k.sched.current
  {
    S.InvShape(k.sched);
    WakeFromKeeps(k.sched, channel, all, 0);
    WakeFromStatus(k.sched, channel, all, 0);
    var n := k.(sched := S.Wake(k.sched, channel, all));
    forall t ensures ThreadOk(n, t) && AwaitOk(n, t) && SleepOk(n, t) {
      assert ThreadOk(k, t) && AwaitOk(k, t) && SleepOk(k, t);
    }
    forall t, u ensures SoleThread(n, t, u) { assert SoleThread(k, t, u); }
    TablesCarry(k, n);
  }

  lemma FreeThreadKeeps(k: Kernel)
    requires KInv(k) && k.sched.current == k.sched.reaper && k.sched.dying != []
    ensures S.Shape(k.sched) && KInv(Next(k, Free))
  {
    S.InvShape(k.sched);
    FreeKeeps(k.sched);
    FreeStatus(k.sched);
    var n := Next(k, Free);
    assert ThreadOk(k, k.sched.current);
    forall t ensures ThreadOk(n, t) && AwaitOk(n, t) && SleepOk(n, t) {
      assert ThreadOk(k, t) && AwaitOk(k, t) && SleepOk(k, t);
    }
    forall t, u ensures SoleThread(n, t, u) { assert SoleThread(k, t, u); }
    TablesCarry(k, n);
  }

  // ---- Process creation -------------------------------------------------------------------------

  lemma NewProcessTables(k: Kernel, a: Addr, t: Tid, root: Root, parent: Addr)
    requires Core(k) && S.Shape(k.sched) && (parent == S.NULL || parent in k.procs)
    requires NewAddress(k, a) && NewSpace(k, root) && FreePid(k.pids, 0) < MAX_PID
    ensures Tables(NewProcess(k, a, t, root, parent))
  {
    var n := NewProcess(k, a, t, root, parent);
    assert ExitOk(k, k.serials);
    forall b ensures ProcessOk(n, b) && ChildrenOk(n, b) { assert ProcessOk(k, b) && ChildrenOk(k, b); }
    forall b, c ensures Separate(n, b, c) { assert Separate(k, b, c) && ProcessOk(k, b) && ProcessOk(k, c); }
    forall i: nat ensures EventOk(n, i) {
      assert EventOk(k, i);
      assert IsCollected(k, i) <==> IsCollected(n, i);
      if IsCollected(k, i) { assert ExitOk(k, k.events[i].serial); }
    }
    forall i: nat, j: nat ensures Once(n, i, j) {
      assert Once(k, i, j);
      assert IsCollected(k, i) <==> IsCollected(n, i);
      assert IsCollected(k, j) <==> IsCollected(n, j);
    }
    forall m: nat ensures ExitOk(n, m) {
      assert ExitOk(k, m);
      if m in k.exited {
        if b :| Zombie(k, b, m) { assert Zombie(n, b, m); }
        if i: nat :| IsCollected(k, i) && k.events[i].serial == m { assert IsCollected(n, i) && n.events[i].serial == m; }
      }
    }
  }

  lemma NewProcessKeeps(k: Kernel, a: Addr, t: Tid, root: Root, parent: Addr)
    requires KInv(k) && S.Shape(k.sched) && (parent == S.NULL || parent in k.procs)
    requires NewAddress(k, a) && NewSpace(k, root) && t !in k.sched.threads && FreePid(k.pids, 0) < MAX_PID
    ensures KInv(NewProcess(k, a, t, root, parent))
  {
    var n := NewProcess(k, a, t, root, parent);
    AddKeeps(k.sched, t, 0);
    AddStatus(k.sched, t, 0);
    CurrentAlive(k);
    assert ThreadOk(k, k.sched.current) && ThreadOk(k, t);
    forall u ensures ThreadOk(n, u) { NewProcessThread(k, a, t, root, parent, u); }
    forall u ensures AwaitOk(n, u) && SleepOk(n, u) { NewProcessWaits(k, a, t, root, parent, u); }
    forall u, v ensures SoleThread(n, u, v) { assert SoleThread(k, u, v) && ThreadOk(k, u) && ThreadOk(k, v); }
    NewProcessTables(k, a, t, root, parent);
  }

  lemma NewProcessThread(k: Kernel, a: Addr, t: Tid, root: Root, parent: Addr, u: Tid)
    requires Core(k) && S.Shape(k.sched) && NewAddress(k, a) && t !in k.sched.threads
    ensures ThreadOk(NewProcess(k, a, t, root, parent), u)
  {
    AddStatus(k.sched, t, 0);
    var n := NewProcess(k, a, t, root, parent);
    assert ThreadOk(k, u);
    if u != t && u in k.owner { assert Linked(k, k.owner[u], k.born[u]) ==> Linked(n, n.owner[u], n.born[u]); }
  }

  lemma NewProcessWaits(k: Kernel, a: Addr, t: Tid, root: Root, parent: Addr, u: Tid)
    requires Core(k) && S.Shape(k.sched) && NewAddress(k, a) && t !in k.sched.threads
    ensures AwaitOk(NewProcess(k, a, t, root, parent), u) && SleepOk(NewProcess(k, a, t, root, parent), u)
  {
    AddStatus(k.sched, t, 0);
    assert ThreadOk(k, u) && AwaitOk(k, u) && SleepOk(k, u);
  }

  /** Listing a new child under its parent. */
  lemma AdoptKeeps(k: Kernel, p: Addr, a: Addr)
    requires KInv(k) && p in k.procs && a in k.procs && k.procs[a].parent == p && a !in k.procs[p].children
    ensures KInv(k.(procs := k.procs[p := k.procs[p].(children := k.procs[p].children + [a])]))
  {
    var n := k.(procs := k.procs[p := k.procs[p].(children := k.procs[p].children + [a])]);
    forall u ensures ThreadOk(n, u) && AwaitOk(n, u) && SleepOk(n, u) {
      assert ThreadOk(k, u) && AwaitOk(k, u) && SleepOk(k, u);
    }
    forall u, v ensures SoleThread(n, u, v) { assert SoleThread(k, u, v); }
    forall b ensures ProcessOk(n, b) && ChildrenOk(n, b) { assert ProcessOk(k, b) && ChildrenOk(k, b); }
    forall b, c ensures Separate(n, b, c) { assert Separate(k, b, c); }
    LogCarry(k, n);
  }

  /** The log depends on processes only through their serial numbers and zombie flags. */
  lemma LogCarry(k: Kernel, n: Kernel)
    requires Tables(k) && n.procs.Keys == k.procs.Keys && n.serials == k.serials && n.exited == k.exited && n.events == k.events
    requires forall a :: a in k.procs ==> n.procs[a].serial == k.procs[a].serial && n.procs[a].zombie == k.procs[a].zombie
    ensures (forall i :: EventOk(n, i)) && (forall i, j :: Once(n, i, j)) && (forall m :: ExitOk(n, m))
  {
    forall i: nat ensures EventOk(n, i) { assert EventOk(k, i); assert IsCollected(k, i) <==> IsCollected(n, i); }
    forall i: nat, j: nat ensures Once(n, i, j) {
      assert Once(k, i, j);
      assert IsCollected(k, i) <==> IsCollected(n, i);
      assert IsCollected(k, j) <==> IsCollected(n, j);
    }
    forall m: nat ensures ExitOk(n, m) {
      assert ExitOk(k, m);
      if m in k.exited {
        if b :| Zombie(k, b, m) { assert Zombie(n, b, m); }
        if i: nat :| IsCollected(k, i) && k.events[i].serial == m { assert IsCollected(n, i) && n.events[i].serial == m; }
      }
    }
  }

  lemma ForkKeeps(k: Kernel, a: Addr, t: Tid, root: Root, memory: bool)
    requires KInv(k) && S.Shape(k.sched) && Enabled(k, ForkCall(a, t, root, memory))
    ensures KInv(Fork(k, a, t, root, memory))
    ensures !memory || FreePid(k.pids, 0) == MAX_PID ==> Fork(k, a, t, root, memory) == k
  {
    if FreePid(k.pids, 0) < MAX_PID && memory {
      var p := Caller(k);
      NewProcessKeeps(k, a, t, root, p);
      assert ChildrenOk(k, p);
      AdoptKeeps(NewProcess(k, a, t, root, p), p, a);
    }
  }

  // ---- execve -----------------------------------------------------------------------------------

  /** A failed execve changes nothing at all. */
  lemma ExecFailureIsNoOp(k: Kernel, root: Root)
    requires KInv(k) && Calling(k) && NewSpace(k, root)
    ensures Exec(k, root, false) == k
  {
    var p := Caller(k);
    assert ProcessOk(k, p);
    assert k.procs[p := k.procs[p].(space := root)][p := k.procs[p]] == k.procs;
    assert k.spaces + {root} - {root} == k.spaces;
  }

  /** A successful execve replaces the caller's address space and loads the new one; only the old
      one is destroyed. */
  lemma ExecSuccess(k: Kernel, root: Root)
    requires KInv(k) && Calling(k) && NewSpace(k, root)
    ensures var n := Exec(k, root, true); var p := Caller(k);
      && n.cr3 == root && n.procs[p].space == root && !n.faulted
      && n.spaces == k.spaces - {k.procs[p].space} + {root}
      && n == k.(procs := k.procs[p := k.procs[p].(space := root)], spaces := n.spaces, cr3 := root)
  {
    assert ProcessOk(k, Caller(k));
    assert k.spaces + {root} - {k.procs[Caller(k)].space} == k.spaces - {k.procs[Caller(k)].space} + {root};
  }

  lemma ExecKeeps(k: Kernel, root: Root, loads: bool)
    requires KInv(k) && Calling(k) && NewSpace(k, root)
    ensures KInv(Exec(k, root, loads))
  {
    if loads {
      ExecSuccess(k, root);
      var n := Exec(k, root, true);
      assert ProcessOk(k, Caller(k));
      forall u ensures ThreadOk(n, u) && AwaitOk(n, u) && SleepOk(n, u) {
        assert ThreadOk(k, u) && AwaitOk(k, u) && SleepOk(k, u);
      }
      forall u, v ensures SoleThread(n, u, v) { assert SoleThread(k, u, v); }
      forall b ensures ProcessOk(n, b) && ChildrenOk(n, b) {
        assert ProcessOk(k, b) && ChildrenOk(k, b) && Separate(k, b, Caller(k));
      }
      forall b, c ensures Separate(n, b, c) { assert Separate(k, b, c) && ProcessOk(k, b) && ProcessOk(k, c); }
      LogCarry(k, n);
    } else {
      ExecFailureIsNoOp(k, root);
    }
  }

  // ---- exit -------------------------------------------------------------------------------------

  /** At most the parent's thread sleeps on a process, and only if there is a parent. */
  lemma OneSleeper(k: Kernel, p: Addr, t: Tid, u: Tid)
    requires Core(k) && p in k.procs && SleepsOn(k.sched, t, p) && SleepsOn(k.sched, u, p)
    ensures t == u && t in k.awaiting && k.awaiting[t] == p && t in k.owner && k.procs[p].parent == k.owner[t] != S.NULL && !k.procs[p].zombie
  {
    assert SleepOk(k, t) && SleepOk(k, u) && AwaitOk(k, t) && AwaitOk(k, u);
    assert ChildrenOk(k, k.owner[t]) && ChildrenOk(k, k.owner[u]);
    assert ProcessOk(k, k.owner[t]);
    assert SoleThread(k, t, u);
  }

  /** What exit does to every thread: the caller is gone, the sleeper on the process is awake. */
  ghost predicate ExitStatus(s: S.Sched, k: Kernel, p: Addr) {
    && s.threads.Keys == k.sched.threads.Keys && s.idle == k.sched.idle && s.reaper == k.sched.reaper
    && k.sched.current in s.threads
    && forall t :: t in k.sched.threads ==>
         StatusIn(s, t) == if t == k.sched.current then Gone else if SleepsOn(k.sched, t, p) then Active else StatusIn(k.sched, t)
  }

  ghost function Woken(k: Kernel, p: Addr): S.Sched
    requires S.Shape(k.sched) && p in k.procs
  {
    if k.procs[p].parent != S.NULL then S.Wake(k.sched, p, false) else k.sched
  }

  lemma WokenStatus(k: Kernel, p: Addr)
    requires Core(k) && S.Shape(k.sched) && p in k.procs
    ensures var s := Woken(k, p);
      && S.Inv(s) && S.Shape(s) && s.current == k.sched.current && s.idle == k.sched.idle && s.reaper == k.sched.reaper
      && s.threads.Keys == k.sched.threads.Keys
      && forall t :: t in k.sched.threads ==>
           StatusIn(s, t) == if SleepsOn(k.sched, t, p) then Active else StatusIn(k.sched, t)
  {
    WakeFromKeeps(k.sched, p, false, 0);
    WakeOneStatus(k.sched, p);
    if t :| SleepsOn(k.sched, t, p) {
      forall u | SleepsOn(k.sched, u, p) ensures u == t { OneSleeper(k, p, t, u); }
      OneSleeper(k, p, t, t);
    }
    S.InvShape(Woken(k, p));
  }

  lemma ExitedStatus(k: Kernel, p: Addr)
    requires Core(k) && S.Shape(k.sched) && p in k.procs
    requires k.sched.current in k.owner && k.owner[k.sched.current] == p
    ensures S.Shape(Woken(k, p)) && S.Inv(S.Terminate(Woken(k, p))) && ExitStatus(S.Terminate(Woken(k, p)), k, p)
  {
    WokenStatus(k, p);
    assert ThreadOk(k, k.sched.current);
    TerminateKeeps(Woken(k, p));
    TerminateStatus(Woken(k, p));
  }

  lemma ExitThreads(k: Kernel, p: Addr, status: int, s: S.Sched)
    requires Core(k) && Calling(k) && p == Caller(k) && S.Inv(s) && ExitStatus(s, k, p)
    ensures var n := MarkZombie(k, p, status).(sched := s);
      (forall t :: ThreadOk(n, t)) && (forall t, u :: SoleThread(n, t, u)) && (forall t :: AwaitOk(n, t)) && (forall t :: SleepOk(n, t))
  {
    var n := MarkZombie(k, p, status).(sched := s);
    CurrentAlive(k);
    forall t ensures ThreadOk(n, t) {
      assert ThreadOk(k, t) && SoleThread(k, t, k.sched.current);
    }
    forall t, u ensures SoleThread(n, t, u) { assert SoleThread(k, t, u) && ThreadOk(k, t) && ThreadOk(k, u); }
    forall t ensures AwaitOk(n, t) {
      assert AwaitOk(k, t) && ThreadOk(k, t);
      assert ThreadOk(k, k.sched.current);
    }
    forall t ensures SleepOk(n, t) { assert SleepOk(k, t) && AwaitOk(k, t) && ThreadOk(k, t); }
  }

  lemma ExitTables(k: Kernel, p: Addr, status: int)
    requires Core(k) && p in k.procs && !k.procs[p].zombie
    ensures Tables(MarkZombie(k, p, status))
  {
    var n := MarkZombie(k, p, status);
    var serial := k.procs[p].serial;
    assert ProcessOk(k, p);
    forall b ensures ProcessOk(n, b) && ChildrenOk(n, b) { assert ProcessOk(k, b) && ChildrenOk(k, b) && Separate(k, b, p); }
    forall b, c ensures Separate(n, b, c) { assert Separate(k, b, c); }
    forall i: nat ensures EventOk(n, i) { assert EventOk(k, i); assert IsCollected(k, i) <==> IsCollected(n, i); }
    forall i: nat, j: nat ensures Once(n, i, j) {
      assert Once(k, i, j);
      assert IsCollected(k, i) <==> IsCollected(n, i);
      assert IsCollected(k, j) <==> IsCollected(n, j);
    }
    forall m: nat ensures ExitOk(n, m) {
      assert ExitOk(k, m);
      if m == serial {
        assert Zombie(n, p, m);
      } else if m in k.exited {
        if b :| Zombie(k, b, m) { assert Zombie(n, b, m); }
        if i: nat :| IsCollected(k, i) && k.events[i].serial == m { assert IsCollected(n, i) && n.events[i].serial == m; }
      }
    }
  }

  lemma ExitKeeps(k: Kernel, status: int)
    requires KInv(k) && S.Shape(k.sched) && Calling(k)
    ensures KInv(Exit(k, status))
  {
    var p := Caller(k);
    CurrentAlive(k);
    assert ThreadOk(k, k.sched.current);
    ExitedStatus(k, p);
    WokenStatus(k, p);
    var s := S.Terminate(Woken(k, p));
    ExitCore(k, p, status, s);
    var z := MarkZombie(k, p, status).(dangling := Exit(k, status).dangling);
    var w := z.(sched := Woken(k, p));
    CoreIgnoresCr3(MarkZombie(k, p, status).(sched := s), z.(sched := s));
    assert w.(sched := s) == z.(sched := s);
    ExitReschedules(k, status);
    RescheduleKeeps(w, s);
  }

  lemma ExitCore(k: Kernel, p: Addr, status: int, s: S.Sched)
    requires Core(k) && Calling(k) && p == Caller(k) && !k.procs[p].zombie && S.Inv(s) && ExitStatus(s, k, p)
    ensures Core(MarkZombie(k, p, status).(sched := s))
  {
    var z := MarkZombie(k, p, status);
    ExitThreads(k, p, status, s);
    ExitTables(k, p, status);
    TablesCarry(z, z.(sched := s));
  }

  /** Exit reads its parent, marks the zombie, wakes the waiter and gives up the CPU. */
  lemma ExitReschedules(k: Kernel, status: int)
    requires S.Shape(k.sched) && Calling(k)
    ensures var p := Caller(k);
      var d := k.dangling || ParentDeleted(k, p);
      && S.Shape(Woken(k, p))
      && Exit(k, status) == Reschedule(MarkZombie(k, p, status).(dangling := d, sched := Woken(k, p)), S.Terminate(Woken(k, p)))
      && Exit(k, status).dangling == d
  {}

  // ---- waitpid ----------------------------------------------------------------------------------

  lemma {:induction false} FindChildMember(k: Kernel, children: seq<Addr>, pid: nat)
    requires AllAllocated(k, children)
    ensures var c := FindChild(k, children, pid); c == S.NULL || (c in children && c in k.procs && (pid == 0 || k.procs[c].pid == pid))
  {
    if children != [] {
      FindChildMember(k, children[1..], pid);
    }
  }

  lemma {:induction false} WithoutMembers(children: seq<Addr>, c: Addr)
    requires forall i, j :: 0 <= i < j < |children| ==> children[i] != children[j]
    ensures var w := Without(children, c);
      && (forall x :: x in w <==> x in children && x != c)
      && (forall i, j :: 0 <= i < j < |w| ==> w[i] != w[j])
  {
    if children != [] {
      WithoutMembers(children[1..], c);
      assert forall x :: x in children <==> x == children[0] || x in children[1..];
      assert children[0] !in children[1..];
      if children[0] != c {
        var w := Without(children[1..], c);
        assert forall j :: 0 <= j < |w| ==> w[j] in w;
      }
    }
  }

  ghost predicate Reapable(k: Kernel, p: Addr, c: Addr) {
    && k.sched.current in k.owner && k.owner[k.sched.current] == p
    && p in k.procs && c in k.procs && c in k.procs[p].children && k.procs[c].zombie && p != c
    && forall t :: t in k.awaiting ==> k.awaiting[t] != c
  }

  lemma ReapThreads(k: Kernel, p: Addr, c: Addr)
    requires KInv(k) && Reapable(k, p, c)
    ensures var n := Reap(k, p, c);
      (forall t :: ThreadOk(n, t)) && (forall t, u :: SoleThread(n, t, u)) && (forall t :: AwaitOk(n, t)) && (forall t :: SleepOk(n, t))
  {
    var n := Reap(k, p, c);
    assert ChildrenOk(k, p);
    WithoutMembers(k.procs[p].children, c);
    forall t ensures ThreadOk(n, t) && AwaitOk(n, t) && SleepOk(n, t) {
      assert ThreadOk(k, t) && AwaitOk(k, t) && SleepOk(k, t);
    }
    forall t, u ensures SoleThread(n, t, u) { assert SoleThread(k, t, u); }
  }

  lemma ReapProcesses(k: Kernel, p: Addr, c: Addr)
    requires KInv(k) && Reapable(k, p, c)
    ensures var n := Reap(k, p, c);
      (forall a :: ProcessOk(n, a)) && (forall a :: ChildrenOk(n, a)) && (forall a, b :: Separate(n, a, b))
  {
    var n := Reap(k, p, c);
    assert ChildrenOk(k, p);
    WithoutMembers(k.procs[p].children, c);
    forall a ensures ProcessOk(n, a) { assert ProcessOk(k, a) && Separate(k, a, c); }
    assert k.procs[c].parent == p;
    forall a | a in n.procs ensures ChildrenOk(n, a) {
      assert ChildrenOk(k, a);
      var ch := n.procs[a].children;
      forall i | 0 <= i < |ch| ensures ch[i] in n.procs && n.procs[ch[i]].parent == a {
        if a == p { assert ch[i] in ch; }
      }
    }
    forall a, b ensures Separate(n, a, b) { assert Separate(k, a, b); }
  }

  lemma ReapLog(k: Kernel, p: Addr, c: Addr)
    requires KInv(k) && Reapable(k, p, c)
    ensures var n := Reap(k, p, c);
      (forall i :: EventOk(n, i)) && (forall i, j :: Once(n, i, j)) && (forall m :: ExitOk(n, m))
  {
    var n := Reap(k, p, c);
    var last := |k.events|;
    assert ProcessOk(k, c);
    assert IsCollected(n, last) && n.events[last].serial == k.procs[c].serial;
    forall i: nat ensures EventOk(n, i) {
      assert EventOk(k, i);
      if i < last { assert IsCollected(k, i) <==> IsCollected(n, i); assert n.events[i] == k.events[i]; }
      forall a | a in n.procs && i == last ensures n.procs[a].serial != k.procs[c].serial { assert Separate(k, a, c); }
    }
    forall i: nat, j: nat ensures Once(n, i, j) {
      assert Once(k, i, j) && EventOk(k, i);
      if i < last { assert IsCollected(k, i) <==> IsCollected(n, i); assert n.events[i] == k.events[i]; }
      if j < last { assert IsCollected(k, j) <==> IsCollected(n, j); assert n.events[j] == k.events[j]; }
    }
    forall m: nat ensures ExitOk(n, m) {
      assert ExitOk(k, m);
      if m in k.exited && m != k.procs[c].serial {
        if b :| Zombie(k, b, m) { assert Zombie(n, b, m); }
        if i: nat :| IsCollected(k, i) && k.events[i].serial == m { assert IsCollected(n, i) && n.events[i].serial == m; }
      }
    }
  }

  /** The event that follows is that `c` was collected, with its exit status in bits 8 to 15. */
  ghost predicate Collects(k: Kernel, n: Kernel, c: Addr, w: int) {
    && c in k.procs && k.procs[c].serial in k.exited
    && w % 256 == 0 && w / 256 == k.exited[k.procs[c].serial] % 256
    && n.events == k.events + [Collected(k.procs[c].serial, k.procs[c].pid, w)]
  }

  /** Reaping frees a process nobody waits for any more and a space that is not loaded. */
  lemma ReapKeeps(k: Kernel, p: Addr, c: Addr)
    requires KInv(k) && Reapable(k, p, c)
    ensures KInv(Reap(k, p, c)) && k.procs[c].serial in k.exited
    ensures exists w :: Collects(k, Reap(k, p, c), c, w)
  {
    assert ProcessOk(k, c) && Separate(k, p, c);
    assert Collects(k, Reap(k, p, c), c, WaitStatus(k.procs[c].status));
    ReapThreads(k, p, c);
    ReapProcesses(k, p, c);
    ReapLog(k, p, c);
  }

  /** Nobody else waits for a child of the caller. */
  lemma OnlyCallerAwaits(k: Kernel, t: Tid, c: Addr)
    requires Core(k) && k.sched.current in k.owner && t in k.awaiting && k.awaiting[t] == c
    requires k.owner[k.sched.current] in k.procs && c in k.procs[k.owner[k.sched.current]].children
    ensures t == k.sched.current
  {
    CurrentAlive(k);
    assert AwaitOk(k, t) && ChildrenOk(k, k.owner[t]) && ChildrenOk(k, k.owner[k.sched.current]);
    assert SoleThread(k, t, k.sched.current);
  }

  lemma WaitBlocks(k: Kernel, c: Addr)
    requires KInv(k) && S.Shape(k.sched) && Calling(k) && c in k.procs && c in k.procs[Caller(k)].children && !k.procs[c].zombie
    ensures KInv(Reschedule(k.(awaiting := k.awaiting[k.sched.current := c]), S.Block(k.sched, c)))
  {
    var w := k.(awaiting := k.awaiting[k.sched.current := c]);
    var s := S.Block(k.sched, c);
    CurrentAlive(k);
    assert ThreadOk(k, k.sched.current);
    BlockKeeps(k.sched, c);
    BlockStatus(k.sched, c);
    var n := w.(sched := s);
    forall t ensures ThreadOk(n, t) && AwaitOk(n, t) && SleepOk(n, t) {
      assert ThreadOk(k, t) && AwaitOk(k, t) && SleepOk(k, t);
    }
    forall t, u ensures SoleThread(n, t, u) { assert SoleThread(k, t, u); }
    TablesCarry(k, n);
    RescheduleKeeps(w, s);
  }

  lemma LogEntryKeeps(k: Kernel, e: Event)
    requires KInv(k) && (e == NoChild || e == NotYet)
    ensures KInv(k.(events := k.events + [e]))
  {
    var n := k.(events := k.events + [e]);
    forall t ensures ThreadOk(n, t) && AwaitOk(n, t) && SleepOk(n, t) { assert ThreadOk(k, t) && AwaitOk(k, t) && SleepOk(k, t); }
    forall t, u ensures SoleThread(n, t, u) { assert SoleThread(k, t, u); }
    forall a ensures ProcessOk(n, a) && ChildrenOk(n, a) { assert ProcessOk(k, a) && ChildrenOk(k, a); }
    forall a, b ensures Separate(n, a, b) { assert Separate(k, a, b); }
    forall i: nat ensures IsCollected(n, i) <==> IsCollected(k, i) {}
    forall i: nat ensures EventOk(n, i) { assert EventOk(k, i); assert IsCollected(k, i) <==> IsCollected(n, i); }
    forall i: nat, j: nat ensures Once(n, i, j) {
      assert Once(k, i, j);
      assert IsCollected(k, i) <==> IsCollected(n, i);
      assert IsCollected(k, j) <==> IsCollected(n, j);
    }
    forall m: nat ensures ExitOk(n, m) {
      assert ExitOk(k, m);
      if m in k.exited {
        if b :| Zombie(k, b, m) { assert Zombie(n, b, m); }
        if i: nat :| IsCollected(k, i) && k.events[i].serial == m { assert IsCollected(n, i) && n.events[i].serial == m; }
      }
    }
  }

  lemma WaitPidKeeps(k: Kernel, pid: nat, noHang: bool)
    requires KInv(k) && S.Shape(k.sched) && Calling(k)
    ensures KInv(WaitPid(k, pid, noHang))
  {
    var p := Caller(k);
    assert ChildrenOk(k, p);
    FindChildMember(k, k.procs[p].children, pid);
    var c := FindChild(k, k.procs[p].children, pid);
    if c == S.NULL {
      assert ProcessOk(k, c);
      LogEntryKeeps(k, NoChild);
    } else if k.procs[c].zombie {
      forall t | t in k.awaiting ensures k.awaiting[t] != c {
        if k.awaiting[t] == c { OnlyCallerAwaits(k, t, c); }
      }
      CurrentAlive(k);
      assert ThreadOk(k, k.sched.current);
      ReapKeeps(k, p, c);
    } else if noHang {
      LogEntryKeeps(k, NotYet);
    } else {
      WaitBlocks(k, c);
    }
  }

  lemma LeaveWaitKeeps(k: Kernel)
    requires KInv(k) && k.sched.current in k.awaiting
    ensures KInv(k.(awaiting := k.awaiting - {k.sched.current}))
  {
    var n := k.(awaiting := k.awaiting - {k.sched.current});
    CurrentAlive(k);
    assert AwaitOk(k, k.sched.current);
    forall t ensures ThreadOk(n, t) && AwaitOk(n, t) && SleepOk(n, t) { assert ThreadOk(k, t) && AwaitOk(k, t) && SleepOk(k, t); }
    forall t, u ensures SoleThread(n, t, u) { assert SoleThread(k, t, u); }
    TablesCarry(k, n);
  }

  /** The re-check after Block never fails: a resumed waitpid collects the exit status of the
      child it blocked on. */
  lemma ResumeCollects(k: Kernel)
    requires KInv(k) && k.sched.current in k.awaiting && k.sched.current in k.owner
    ensures var c := k.awaiting[k.sched.current];
      && c in k.procs && k.procs[c].zombie && k.procs[c].serial in k.exited
      && KInv(WaitResume(k))
      && exists w :: Collects(k, WaitResume(k), c, w)
  {
    var c := k.awaiting[k.sched.current];
    CurrentAlive(k);
    assert AwaitOk(k, k.sched.current) && ThreadOk(k, k.sched.current);
    assert ProcessOk(k, c);
    LeaveWaitKeeps(k);
    var n := k.(awaiting := k.awaiting - {k.sched.current});
    forall t | t in n.awaiting ensures n.awaiting[t] != c {
      if k.awaiting[t] == c { OnlyCallerAwaits(k, t, c); }
    }
    ReapKeeps(n, Caller(k), c);
    var w :| Collects(n, Reap(n, Caller(k), c), c, w);
    assert Collects(k, WaitResume(k), c, w);
  }

  // ---- Every step, every run -----------------------------------------------------------------------

  lemma StepSafe(k: Kernel, e: Step)
    requires KInv(k) && Enabled(k, e)
    ensures S.Shape(k.sched) && KInv(Next(k, e))
  {
    S.InvShape(k.sched);
    match e
    case Tick =>
      TickKeeps(k.sched);
      TickStatus(k.sched);
      SameStatusKeeps(k, S.Tick(k.sched));
      RescheduleKeeps(k, S.Tick(k.sched));
    case Yield =>
      YieldKeeps(k.sched);
      YieldStatus(k.sched);
      SameStatusKeeps(k, S.Yield(k.sched));
      RescheduleKeeps(k, S.Yield(k.sched));
    case SleepOn(channel) =>
      BlockKeeps(k.sched, channel);
      BlockStatus(k.sched, channel);
      SleepKeeps(k, S.Block(k.sched, channel), k.sched.current, channel);
      RescheduleKeeps(k, S.Block(k.sched, channel));
    case WakeOn(channel, all) => WakeKeeps(k, channel, all);
    case Collect =>
      CollectKeeps(k.sched);
      SameStatusKeeps(k, S.Collect(k.sched));
    case Free => FreeThreadKeeps(k);
    case Spawn(a, t, root) => NewProcessKeeps(k, a, t, root, S.NULL);
    case ForkCall(a, t, root, memory) => ForkKeeps(k, a, t, root, memory);
    case ExecCall(root, loads) => ExecKeeps(k, root, loads);
    case ExitCall(status) => ExitKeeps(k, status);
    case WaitCall(pid, noHang) => WaitPidKeeps(k, pid, noHang);
    case Resume => ResumeCollects(k);
    case ParentCall => CoreIgnoresCr3(k, ParentPid(k));
  }
}
