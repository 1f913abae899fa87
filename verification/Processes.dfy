/** The process code as the kernel runs it, on top of the scheduler object.  Each method is proved
    to compute the function of the same name in `LifecycleModel`. */
module Processes {
  import Sched = Scheduler
  import S = MlfqModel
  import K = LifecycleModel
  import opened MlfqModel
  import opened LifecycleModel
  import L = Lifecycle

  /** What ElfLoader meets when it reads a program header. */
  datatype Segment = Unreadable | NotLoadable | Mapped | NullPage | MapFailed | FaultFailed

  /** What the loader sees of an executable: a bad header, or its segments and whether the stack maps. */
  datatype Image = BadHeader | Image(segments: seq<Segment>, stackMaps: bool)

  /** What a fork finds memory for. */
  datatype Memory = NoSpace | NoTable | NoThread | Enough

  predicate Accepted(g: Segment) { g in {Unreadable, NotLoadable, Mapped} }

  /** The loader accepts exactly the images all of whose segments and whose stack can be mapped. */
  predicate Loads(i: Image) {
    i.Image? && i.stackMaps && forall j :: 0 <= j < |i.segments| ==> Accepted(i.segments[j])
  }

  /** Unlink the first occurrence of a node. */
  method Unlink(children: seq<Addr>, c: Addr) returns (r: seq<Addr>)
    ensures r == Without(children, c)
  {
    var i := 0;
    while i < |children| && children[i] != c
      invariant 0 <= i <= |children|
      invariant Without(children, c) == children[..i] + Without(children[i..], c)
    {
      assert children[i..][0] == children[i] && children[i..][1..] == children[i + 1..];
      assert children[..i + 1] == children[..i] + [children[i]];
      i := i + 1;
    }
    assert children == children[..i] + children[i..];
    if i == |children| { return children; }
    assert children[i..][0] == children[i] && children[i..][1..] == children[i + 1..];
    r := children[..i] + children[i + 1..];
  }

  class Processes {
    const sched: Sched.Scheduler
    var procs: map<Addr, Process>
    var owner: map<Tid, Addr>
    var born: map<Tid, nat>
    var awaiting: map<Tid, Addr>
    var spaces: set<Root>
    var kernelRoot: Root
    var cr3: Root
    var pids: set<nat>
    var serials: nat
    ghost var reaped: set<nat>
    ghost var exited: map<nat, int>
    ghost var events: seq<Event>
    ghost var faulted: bool
    ghost var dangling: bool

    constructor (sched: Sched.Scheduler, kernelRoot: Root)
      ensures this.sched == sched
      ensures Model() == Kernel(sched.Model(), map[], map[], map[], map[], {}, kernelRoot, kernelRoot, {0}, 0, {}, map[], [], false, false)
    {
      this.sched := sched;
      this.kernelRoot, cr3 := kernelRoot, kernelRoot;
      procs, owner, born, awaiting, spaces, pids, serials := map[], map[], map[], map[], {}, {0}, 0;
      reaped, exited, events, faulted, dangling := {}, map[], [], false, false;
    }

    ghost function Model(): Kernel
      reads this, sched
    {
      Kernel(sched.Model(), procs, owner, born, awaiting, spaces, kernelRoot, cr3, pids, serials, reaped, exited, events, faulted, dangling)
    }

    method WriteCr3(root: Root)
      modifies this`cr3, this`faulted
      ensures Model() == K.LoadRoot(old(Model()), root)
    {
      cr3 := root;
      faulted := faulted || !(root in spaces || root == kernelRoot);
    }

    method DestroySpace(root: Root)
      modifies this`spaces, this`faulted
      ensures Model() == K.DestroySpace(old(Model()), root)
    {
      faulted := faulted || root !in spaces || root == cr3;
      spaces := spaces - {root};
    }

    /** The address-space half of PerformSwitch, after the scheduler has picked a thread. */
    method SwitchSpace(ghost before: Kernel, prev: Tid)
      requires before.(sched := sched.Model()) == Model() && prev == before.sched.current
      modifies this`cr3, this`faulted
      ensures Model() == K.Reschedule(before, sched.Model())
    {
      var t := sched.current;
      if t == prev { return; }
      if t !in owner {
        WriteCr3(kernelRoot);
      } else if owner[t] in procs {
        WriteCr3(procs[owner[t]].space);
      } else {
        faulted := true;
      }
    }

    method FindChild(p: Addr, pid: nat) returns (c: Addr)
      requires p in procs && AllAllocated(Model(), procs[p].children)
      ensures c == K.FindChild(Model(), procs[p].children, pid)
      ensures (exists i: nat :: FirstMatch(Model(), procs[p].children, pid, i) && c == procs[p].children[i])
        || (c == NULL && forall a :: a in procs[p].children ==> pid != 0 && procs[a].pid != pid)
    {
      FindsFirst(Model(), procs[p].children, pid);
      var children := procs[p].children;
      var i := 0;
      while i < |children|
        invariant i <= |children|
        invariant AllAllocated(Model(), children[i..])
        invariant K.FindChild(Model(), children[i..], pid) == K.FindChild(Model(), children, pid)
      {
        assert children[i..][0] == children[i] && children[i..][1..] == children[i + 1..];
        if pid == 0 || procs[children[i]].pid == pid { return children[i]; }
        i := i + 1;
      }
      c := NULL;
    }

    method RemoveChild(p: Addr, c: Addr)
      requires p in procs
      modifies this`procs
      ensures procs == old(procs)[p := old(procs)[p].(children := Without(old(procs)[p].children, c))]
    {
      var children := Unlink(procs[p].children, c);
      procs := procs[p := procs[p].(children := children)];
    }

    method Reap(p: Addr, c: Addr)
      requires p in procs && c in procs && p != c
      modifies this`procs, this`pids, this`spaces, this`events, this`faulted, this`reaped
      ensures Model() == K.Reap(old(Model()), p, c)
      ensures exists w :: events == old(events) + [Collected(old(procs)[c].serial, old(procs)[c].pid, w)]
                          && w % 256 == 0 && w / 256 == old(procs)[c].status % 256
    {
      var child := procs[c];
      reaped := reaped + {child.serial};
      events := events + [Collected(child.serial, child.pid, WaitStatus(child.status))];
      RemoveChild(p, c);
      if 2 <= child.pid < MAX_PID { pids := pids - {child.pid}; }
      procs := procs - {c};
      DestroySpace(child.space);
    }

    /** The first half of exit: the log line reads the parent, and the process becomes a zombie. */
    method BecomeZombie(p: Addr, status: int)
      requires p in procs
      modifies this`procs, this`exited, this`dangling
      ensures var k := old(Model());
        Model() == K.MarkZombie(k, p, status).(dangling :=
          k.dangling || ParentDeleted(k, p))
    {
      dangling := dangling || ParentDeleted(Model(), p);
      exited := exited[procs[p].serial := status];
      procs := procs[p := procs[p].(zombie := true, status := status)];
    }

    method Exit(status: int)
      requires Shape(sched.Model()) && Calling(Model())
      modifies this, sched
      ensures Model() == K.Exit(old(Model()), status)
    {
      L.ExitReschedules(Model(), status);
      var t := sched.current;
      var p := owner[t];
      BecomeZombie(p, status);
      if procs[p].parent != NULL {
        sched.Wake(p, false);
      }
      ghost var before := Model();
      sched.Terminate();
      SwitchSpace(before, t);
    }

    /** getppid.  What it returns for a deleted parent is whatever is there now, if anything. */
    method GetParentPid() returns (pid: nat)
      requires Calling(Model())
      modifies this`dangling
      ensures Model() == K.ParentPid(old(Model()))
      ensures var c := procs[owner[sched.current]];
        && (c.parent == NULL ==> pid == 0)
        && (c.parent in procs && c.parent != NULL ==> pid == procs[c.parent].pid)
    {
      var p := owner[sched.current];
      dangling := dangling || ParentDeleted(Model(), p);
      var parent := procs[p].parent;
      pid := if parent != NULL && parent in procs then procs[parent].pid else 0;
    }

    method WaitPid(pid: nat, noHang: bool)
      requires Shape(sched.Model()) && Calling(Model()) && !procs[owner[sched.current]].zombie
      requires L.ChildrenOk(Model(), owner[sched.current])
      modifies this, sched
      ensures Model() == K.WaitPid(old(Model()), pid, noHang)
    {
      var t := sched.current;
      var p := owner[t];
      var c := FindChild(p, pid);
      FindChildListed(procs[p].children, pid);
      if c == NULL {
        events := events + [NoChild];
      } else if procs[c].zombie {
        Reap(p, c);
      } else if noHang {
        events := events + [NotYet];
      } else {
        awaiting := awaiting[t := c];
        ghost var before := Model();
        sched.Block(c);
        SwitchSpace(before, t);
      }
    }

    lemma FindChildListed(children: seq<Addr>, pid: nat)
      requires AllAllocated(Model(), children)
      ensures var c := K.FindChild(Model(), children, pid); c != NULL ==> c in children && c in procs
    {
      if children != [] { FindChildListed(children[1..], pid); }
    }

    method WaitResume()
      requires sched.current in awaiting && sched.current in owner && awaiting[sched.current] in procs
      requires owner[sched.current] in procs && !procs[owner[sched.current]].zombie
      modifies this
      ensures Model() == K.WaitResume(old(Model()))
      ensures var child := old(procs)[old(awaiting)[sched.current]];
        if child.zombie then
          exists w :: events == old(events) + [Collected(child.serial, child.pid, w)] && w % 256 == 0 && w / 256 == child.status % 256
        else events == old(events) + [RecheckFailed]
    {
      var c := awaiting[sched.current];
      awaiting := awaiting - {sched.current};
      if !procs[c].zombie {
        events := events + [RecheckFailed];
      } else {
        Reap(owner[sched.current], c);
      }
    }

    /** ElfLoader::Load as far as address spaces go: it runs with the process's root loaded and
        puts the caller's root back on every path. */
    method Load(p: Addr, image: Image) returns (ok: bool)
      requires p in procs && procs[p].space in spaces && (cr3 in spaces || cr3 == kernelRoot)
      modifies this`cr3, this`faulted
      ensures Model() == old(Model())
      ensures ok <==> Loads(image)
      ensures ok <==> image.Image? && image.stackMaps && NullPage !in image.segments && MapFailed !in image.segments && FaultFailed !in image.segments
    {
      if image.BadHeader? { return false; }
      var prev := cr3;
      WriteCr3(procs[p].space);
      for i := 0 to |image.segments|
        invariant faulted == old(faulted)
        invariant forall j :: 0 <= j < i ==> Accepted(image.segments[j])
      {
        var g := image.segments[i];
        if g == NullPage || g == MapFailed || g == FaultFailed {
          WriteCr3(prev);
          return false;
        }
      }
      WriteCr3(prev);
      ok := image.stackMaps;
    }

    method Exec(root: Root, image: Image) returns (ok: bool)
      requires L.KInv(Model()) && Calling(Model()) && NewSpace(Model(), root)
      modifies this
      ensures Model() == K.Exec(old(Model()), root, ok) && L.KInv(Model())
      ensures ok <==> Loads(image)
      ensures !ok ==> Model() == old(Model())
    {
      L.ExecKeeps(Model(), root, true);
      L.ExecFailureIsNoOp(Model(), root);
      assert L.ProcessOk(Model(), owner[sched.current]);
      var p := owner[sched.current];
      spaces := spaces + {root};
      var before := procs[p].space;
      procs := procs[p := procs[p].(space := root)];
      var prev := cr3;
      WriteCr3(root);
      ok := Load(p, image);
      if !ok {
        procs := procs[p := procs[p].(space := before)];
        WriteCr3(prev);
        DestroySpace(root);
        return;
      }
      DestroySpace(before);
    }

    /** Enter a new child with its thread. */
    method Install(a: Addr, t: Tid, root: Root, pid: nat, p: Addr)
      requires p in procs && a !in procs && Shape(sched.Model()) && t !in sched.threads
      modifies this`procs, this`born, this`serials, this`owner, sched
      ensures var k := old(Model());
        var child := Process(pid, p, [], false, 0, root, k.serials, k.procs[p].serial);
        Model() == k.(procs := k.procs[a := child][p := k.procs[p].(children := k.procs[p].children + [a])], serials := k.serials + 1,
                      owner := k.owner[t := a], born := k.born[t := k.serials], sched := S.AddThread(k.sched, t, 0))
    {
      procs := procs[a := Process(pid, p, [], false, 0, root, serials, procs[p].serial)];
      born := born[t := serials];
      serials := serials + 1;
      owner := owner[t := a];
      procs := procs[p := procs[p].(children := procs[p].children + [a])];
      sched.AddThread(t, 0);
    }

    /** The error paths of fork unlink the child, whether or not it has been linked. */
    method Unlinked(p: Addr, a: Addr, linked: bool)
      requires p in procs && a !in procs[p].children
      modifies this`procs
      ensures procs == old(procs)
    {
      WithoutUnlinked(procs[p].children, a);
      if linked { procs := procs[p := procs[p].(children := procs[p].children + [a])]; }
      RemoveChild(p, a);
    }

    /** Give back the pid and the address space of a child that could not be completed. */
    method Abandon(root: Root, pid: nat)
      requires 2 <= pid < MAX_PID && root in spaces && root != cr3
      modifies this`pids, this`spaces, this`faulted
      ensures Model() == old(Model()).(pids := old(pids) - {pid}, spaces := old(spaces) - {root})
    {
      pids := pids - {pid};
      DestroySpace(root);
    }

    /** Fork; `memory` says for what there is no memory, if anything, and then all is undone.  Both error paths
        unlink the child; the first of them does so before it was ever linked. */
    method Fork(a: Addr, t: Tid, root: Root, memory: Memory) returns (ok: bool)
      requires Shape(sched.Model()) && Calling(Model()) && a !in procs && t !in sched.threads
      requires root !in spaces && root != cr3 && 0 in pids && 1 in pids && a !in procs[owner[sched.current]].children
      modifies this, sched
      ensures Model() == K.Fork(old(Model()), a, t, root, memory == Enough)
      ensures ok <==> memory == Enough && FreePid(old(pids), 0) < MAX_PID
    {
      ghost var before := Model();
      var p := owner[sched.current];
      if memory == NoSpace { return false; }
      var pid := Acquire(root);
      if pid == MAX_PID { return false; }
      if memory != Enough {
        Unlinked(p, a, memory == NoThread);
        Abandon(root, pid);
        assert (before.pids + {pid}) - {pid} == before.pids && (before.spaces + {root}) - {root} == before.spaces;
        return false;
      }
      ForkIs(before, a, t, root, pid);
      Install(a, t, root, pid, p);
      return true;
    }

    /** Copy the address space, then take a pid; without one the space goes again. */
    method Acquire(root: Root) returns (pid: nat)
      requires root !in spaces && root != cr3
      modifies this`spaces, this`pids, this`faulted
      ensures pid == FreePid(old(pids), 0)
      ensures pid == MAX_PID ==> Model() == old(Model())
      ensures pid < MAX_PID ==> Model() == old(Model()).(spaces := old(spaces) + {root}, pids := old(pids) + {pid})
    {
      spaces := spaces + {root};
      pid := AllocatePid();
      if pid == MAX_PID {
        DestroySpace(root);
        assert spaces == old(spaces);
      }
    }

    /** One turn of the reaper's loop: it reads the process of the thread, and deletes the thread. */
    method FreeThread()
      requires sched.dying != [] && Shape(sched.Model())
      modifies this`owner, this`born, this`dangling, sched
      ensures Model() == K.FreeThread(old(Model()))
    {
      var t := sched.dying[0];
      dangling := dangling || (t in owner && (t !in born || Deleted(Model(), owner[t], born[t])));
      owner, born := owner - {t}, born - {t};
      sched.Free();
    }

    /** Take the first clear bit of the pid bitmap. */
    method AllocatePid() returns (pid: nat)
      modifies this`pids
      ensures pid == FreePid(old(pids), 0)
      ensures pids == if pid == MAX_PID then old(pids) else old(pids) + {pid}
      ensures pid <= 32768 && (pid < 32768 ==> pid !in old(pids)) && forall q: nat :: q < pid ==> q in old(pids)
    {
      pid := 0;
      while pid < MAX_PID && pid in pids
        invariant pid <= MAX_PID && FreePid(pids, pid) == FreePid(pids, 0)
      {
        pid := pid + 1;
      }
      if pid < MAX_PID { pids := pids + {pid}; }
    }
  }
}
