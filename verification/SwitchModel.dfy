/** Kernel stacks and the context switch, on a machine whose memory is addressed in 64-bit words. */
module SwitchModel {

  type Tid = nat
  /** Words never written read as zero. */
  type Memory = map<int, int>

  function Load(mem: Memory, a: int): int { if a in mem then mem[a] else 0 }

  /** Words in a kernel stack of 32768 bytes. */
  const STACK: int := 4096

  datatype Gp = Gp(
    r15: int, r14: int, r13: int, r12: int, r11: int, r10: int, r9: int, r8: int,
    rbp: int, rdi: int, rsi: int, rdx: int, rcx: int, rbx: int, rax: int)

  /** What an interrupt or system call saves. */
  datatype Frame = Frame(gp: Gp, rip: int, cs: int, rflags: int, rsp: int, ss: int)

  datatype Cpu = Cpu(gp: Gp, rsp: int, rip: int, mem: Memory)

  /** Landing points for new threads. */
  datatype Landing = Landing(thread: int, user: int, fork: int)

  // ---- Stack words ----------------------------------------------------------------------------------

  function Store(mem: Memory, a: int, v: int): Memory { mem[a := v] }

  /** Push words one after the other, starting below `sp`. */
  function Pushed(mem: Memory, sp: int, words: seq<int>): Memory {
    if words == [] then mem
    else Store(Pushed(mem, sp, words[..|words| - 1]), sp - |words|, words[|words| - 1])
  }

  lemma {:induction false} PushedAt(mem: Memory, sp: int, words: seq<int>, a: int)
    ensures Load(Pushed(mem, sp, words), a) == if sp - |words| <= a < sp then words[sp - 1 - a] else Load(mem, a)
  {
    if words != [] { PushedAt(mem, sp, words[..|words| - 1], a); }
  }

  // ---- The switch -------------------------------------------------------------------------------------

  function CalleeSaved(g: Gp): seq<int> { [g.rbp, g.rbx, g.r12, g.r13, g.r14, g.r15] }

  /** Save the callee-saved registers, change stacks, restore and return. */
  function SwitchTo(c: Cpu, next: int): Cpu {
    var mem := Pushed(c.mem, c.rsp, CalleeSaved(c.gp));
    Cpu(c.gp.(r15 := Load(mem, next), r14 := Load(mem, next + 1), r13 := Load(mem, next + 2), r12 := Load(mem, next + 3), rbx := Load(mem, next + 4), rbp := Load(mem, next + 5)),
        next + 7, Load(mem, next + 6), mem)
  }

  /** Pop a whole frame: all registers, two words skipped, then the five words of iretq. */
  function ForkReturn(c: Cpu): Frame {
    var m, s := c.mem, c.rsp;
    Frame(Gp(Load(m, s), Load(m, s + 1), Load(m, s + 2), Load(m, s + 3), Load(m, s + 4), Load(m, s + 5), Load(m, s + 6), Load(m, s + 7),
             Load(m, s + 8), Load(m, s + 9), Load(m, s + 10), Load(m, s + 11), Load(m, s + 12), Load(m, s + 13), Load(m, s + 14)),
          Load(m, s + 17), Load(m, s + 18), Load(m, s + 19), Load(m, s + 20), Load(m, s + 21))
  }

  function ThreadStack(l: Landing, entry: int, arg: int, self: int): seq<int> { [l.thread, 0, 0, entry, arg, self, 0] }
  function UserStack(l: Landing, rip: int, rsp: int): seq<int> { [l.user, 0, 0, rip, rsp, 0, 0] }

  function ForkStack(l: Landing, f: Frame): seq<int> {
    [f.ss, f.rsp, f.rflags, f.cs, f.rip] + [0, 0] +
    [0, f.gp.rbx, f.gp.rcx, f.gp.rdx, f.gp.rsi, f.gp.rdi, f.gp.rbp, f.gp.r8, f.gp.r9, f.gp.r10, f.gp.r11, f.gp.r12, f.gp.r13, f.gp.r14, f.gp.r15] +
    [l.fork, 0, 0, 0, 0, 0, 0]
  }

  // ---- The world --------------------------------------------------------------------------------------

  /** `base` is the lowest word of each thread's stack, `saved` the stack pointers of threads not running. */
  datatype World = World(cpu: Cpu, current: Tid, saved: map<Tid, int>, base: map<Tid, int>)

  datatype Step =
    | Compute(cpu: Cpu)                       // the current thread runs, and leaves the other stacks alone
    | Switch(next: Tid, ra: int)              // the current thread calls SwitchContext, to return to `ra`
    | Spawn(t: Tid, at: int, words: seq<int>) // a new thread, with words pushed on its new stack
    | Retire(t: Tid)                          // a thread that does not run goes away, and its stack

  predicate Apart(a: int, b: int) { a + STACK <= b || b + STACK <= a }

  ghost predicate WorldOk(w: World) {
    && w.current in w.base && w.current !in w.saved
    && (forall t :: t in w.saved ==> t in w.base)
    && (forall t, u :: t in w.base && u in w.base && t != u ==> Apart(w.base[t], w.base[u]))
    && w.base[w.current] <= w.cpu.rsp <= w.base[w.current] + STACK
    && (forall t :: t in w.saved ==> w.base[t] <= w.saved[t] <= w.base[t] + STACK - 7)
  }

  ghost predicate Feasible(w: World, s: Step)
    requires WorldOk(w)
  {
    match s
    case Compute(c) =>
      && w.base[w.current] <= c.rsp <= w.base[w.current] + STACK
      && forall t, a :: t in w.base && t != w.current && w.base[t] <= a < w.base[t] + STACK ==> Load(c.mem, a) == Load(w.cpu.mem, a)
    case Switch(next, _) => next in w.saved && w.base[w.current] + 7 <= w.cpu.rsp
    case Spawn(t, at, words) => t !in w.base && 7 <= |words| <= STACK && forall u :: u in w.base ==> Apart(w.base[u], at)
    case Retire(t) => t in w.saved
  }

  function Next(w: World, s: Step): World
    requires s.Switch? ==> s.next in w.saved
  {
    match s
    case Compute(c) => w.(cpu := c)
    case Switch(next, ra) =>
      var called := w.cpu.(rsp := w.cpu.rsp - 1, mem := Store(w.cpu.mem, w.cpu.rsp - 1, ra));
      World(SwitchTo(called, w.saved[next]), next, (w.saved - {next})[w.current := called.rsp - 6], w.base)
    case Spawn(t, at, words) =>
      World(w.cpu.(mem := Pushed(w.cpu.mem, at + STACK, words)), w.current, w.saved[t := at + STACK - |words|], w.base[t := at])
    case Retire(t) => World(w.cpu, w.current, w.saved - {t}, w.base - {t})
  }

  // ---- Suspended threads --------------------------------------------------------------------------------

  /** What a thread expects to find when it resumes: callee-saved registers, stack pointer, return address
      and the stack above the stack pointer. */
  datatype Context = Context(saved: seq<int>, rsp: int, ra: int, stack: Memory)

  ghost predicate Suspended(w: World, t: Tid, c: Context) {
    && t in w.saved && t in w.base && |c.saved| == 6 && w.saved[t] == c.rsp - 7 && c.rsp <= w.base[t] + STACK
    && (forall i :: 0 <= i < 6 ==> Load(w.cpu.mem, c.rsp - 2 - i) == c.saved[i])
    && Load(w.cpu.mem, c.rsp - 1) == c.ra
    && (forall a :: c.rsp <= a < w.base[t] + STACK ==> Load(w.cpu.mem, a) == Load(c.stack, a))
  }

  /** The memory a switch leaves: the return address and six registers below the old stack pointer. */
  lemma SwitchMemory(w: World, next: Tid, ra: int, a: int)
    requires next in w.saved
    ensures var m := Next(w, Switch(next, ra)).cpu.mem;
      var r := w.cpu.rsp;
      Load(m, a) == if r - 7 <= a < r - 1 then CalleeSaved(w.cpu.gp)[r - 2 - a] else if a == r - 1 then ra else Load(w.cpu.mem, a)
  {
    var called := w.cpu.(rsp := w.cpu.rsp - 1, mem := Store(w.cpu.mem, w.cpu.rsp - 1, ra));
    PushedAt(called.mem, called.rsp, CalleeSaved(called.gp), a);
  }

  lemma StepOk(w: World, s: Step)
    requires WorldOk(w) && Feasible(w, s)
    ensures WorldOk(Next(w, s))
  {}

  /** Steps other than the thread's own resumption or end keep what it will find. */
  lemma StepKeeps(w: World, s: Step, t: Tid, c: Context)
    requires WorldOk(w) && Feasible(w, s) && Suspended(w, t, c) && s != Retire(t) && !(s.Switch? && s.next == t)
    ensures Suspended(Next(w, s), t, c)
  {
    var n := Next(w, s);
    var lo, hi := w.base[t], w.base[t] + STACK;
    forall a | lo <= a < hi ensures Load(n.cpu.mem, a) == Load(w.cpu.mem, a) {
      match s
      case Compute(_) =>
      case Switch(next, ra) => SwitchMemory(w, next, ra, a);
      case Spawn(u, at, words) => PushedAt(w.cpu.mem, at + STACK, words, a);
      case Retire(_) =>
    }
  }

  /** A switch suspends the current thread with its registers, return address and stack. */
  lemma SwitchSuspends(w: World, next: Tid, ra: int)
    requires WorldOk(w) && Feasible(w, Switch(next, ra))
    ensures Suspended(Next(w, Switch(next, ra)), w.current, Context(CalleeSaved(w.cpu.gp), w.cpu.rsp, ra, w.cpu.mem))
  {
    forall a: int ensures var m := Next(w, Switch(next, ra)).cpu.mem;
      var r := w.cpu.rsp;
      Load(m, a) == if r - 7 <= a < r - 1 then CalleeSaved(w.cpu.gp)[r - 2 - a] else if a == r - 1 then ra else Load(w.cpu.mem, a)
    {
      SwitchMemory(w, next, ra, a);
    }
  }

  /** A switch to a suspended thread gives it back what it expects. */
  lemma SwitchResumes(w: World, t: Tid, ra: int, c: Context)
    requires WorldOk(w) && Feasible(w, Switch(t, ra)) && Suspended(w, t, c)
    ensures var n := Next(w, Switch(t, ra));
      && n.current == t && CalleeSaved(n.cpu.gp) == c.saved && n.cpu.rsp == c.rsp && n.cpu.rip == c.ra
      && forall a :: c.rsp <= a < w.base[t] + STACK ==> Load(n.cpu.mem, a) == Load(c.stack, a)
  {
    forall a | w.base[t] <= a < w.base[t] + STACK ensures Load(Next(w, Switch(t, ra)).cpu.mem, a) == Load(w.cpu.mem, a) {
      SwitchMemory(w, t, ra, a);
    }
  }

  // ---- Runs -------------------------------------------------------------------------------------------

  /** Every step is feasible; `StepOk` shows that a run from a good world stays in good worlds. */
  ghost predicate FeasibleRun(w: World, run: seq<Step>)
    decreases |run|
  {
    WorldOk(w) && (run != [] ==> Feasible(w, run[0]) && FeasibleRun(Next(w, run[0]), run[1..]))
  }

  ghost function After(w: World, run: seq<Step>): (v: World)
    requires FeasibleRun(w, run)
    ensures WorldOk(v)
    decreases |run|
  {
    if run == [] then w else After(Next(w, run[0]), run[1..])
  }

  /** The run neither resumes nor ends the thread. */
  predicate Avoids(run: seq<Step>, t: Tid) {
    forall i :: 0 <= i < |run| ==> run[i] != Retire(t) && !(run[i].Switch? && run[i].next == t)
  }

  lemma {:induction false} RunKeeps(w: World, run: seq<Step>, t: Tid, c: Context)
    requires FeasibleRun(w, run) && Suspended(w, t, c) && Avoids(run, t)
    ensures Suspended(After(w, run), t, c)
    decreases |run|
  {
    if run != [] {
      StepKeeps(w, run[0], t, c);
      RunKeeps(Next(w, run[0]), run[1..], t, c);
    }
  }

  /** A thread that switches out and, after any run of other threads, is switched to again finds its
      callee-saved registers, its stack pointer, its stack, and continues at its return address. */
  lemma SwitchRoundTrip(w: World, next: Tid, ra: int, run: seq<Step>, back: int)
    requires WorldOk(w) && Feasible(w, Switch(next, ra))
    requires FeasibleRun(Next(w, Switch(next, ra)), run) && Avoids(run, w.current)
    requires Feasible(After(Next(w, Switch(next, ra)), run), Switch(w.current, back))
    ensures var n := Next(After(Next(w, Switch(next, ra)), run), Switch(w.current, back));
      && n.current == w.current
      && CalleeSaved(n.cpu.gp) == CalleeSaved(w.cpu.gp) && n.cpu.rsp == w.cpu.rsp && n.cpu.rip == ra
      && forall a :: w.cpu.rsp <= a < w.base[w.current] + STACK ==> Load(n.cpu.mem, a) == Load(w.cpu.mem, a)
  {
    var t := w.current;
    var c := Context(CalleeSaved(w.cpu.gp), w.cpu.rsp, ra, w.cpu.mem);
    var out := Next(w, Switch(next, ra));
    SwitchSuspends(w, next, ra);
    RunKeeps(out, run, t, c);
    var v := After(out, run);
    SwitchResumes(v, t, back, c);
    SwitchBase(w, next, ra);
    RunBase(out, run, t);
  }

  lemma SwitchBase(w: World, next: Tid, ra: int)
    requires next in w.saved
    ensures Next(w, Switch(next, ra)).base == w.base
  {}

  lemma {:induction false} RunBase(w: World, run: seq<Step>, t: Tid)
    requires FeasibleRun(w, run) && Avoids(run, t) && t in w.base
    ensures t in After(w, run).base && After(w, run).base[t] == w.base[t]
    decreases |run|
  {
    if run != [] {
      RunBase(Next(w, run[0]), run[1..], t);
    }
  }

  // ---- New threads --------------------------------------------------------------------------------------

  /** What a new thread starts with: the last seven words pushed are its switch frame. */
  function Fresh(mem: Memory, at: int, words: seq<int>): Context
    requires |words| >= 7
  {
    var n := |words|;
    Context([words[n - 6], words[n - 5], words[n - 4], words[n - 3], words[n - 2], words[n - 1]], at + STACK - (n - 7), words[n - 7],
            Pushed(mem, at + STACK, words))
  }

  lemma SpawnSuspends(w: World, t: Tid, at: int, words: seq<int>)
    requires WorldOk(w) && Feasible(w, Spawn(t, at, words))
    ensures Suspended(Next(w, Spawn(t, at, words)), t, Fresh(w.cpu.mem, at, words))
  {
    var top := at + STACK;
    forall a: int ensures Load(Pushed(w.cpu.mem, top, words), a) == if top - |words| <= a < top then words[top - 1 - a] else Load(w.cpu.mem, a) {
      PushedAt(w.cpu.mem, top, words, a);
    }
  }

  /** From its making to its first resumption nothing touches a new thread's stack. */
  lemma FreshKept(w: World, t: Tid, at: int, words: seq<int>, run: seq<Step>)
    requires WorldOk(w) && Feasible(w, Spawn(t, at, words))
    requires FeasibleRun(Next(w, Spawn(t, at, words)), run) && Avoids(run, t)
    ensures var v := After(Next(w, Spawn(t, at, words)), run);
      Suspended(v, t, Fresh(w.cpu.mem, at, words)) && t in v.base && v.base[t] == at
  {
    var born := Next(w, Spawn(t, at, words));
    SpawnSuspends(w, t, at, words);
    RunKeeps(born, run, t, Fresh(w.cpu.mem, at, words));
    RunBase(born, run, t);
  }

  lemma ResumeFresh(v: World, t: Tid, at: int, mem: Memory, words: seq<int>, back: int)
    requires WorldOk(v) && Feasible(v, Switch(t, back)) && |words| >= 7 && Suspended(v, t, Fresh(mem, at, words)) && v.base[t] == at
    ensures var n := Next(v, Switch(t, back));
      var k := |words|;
      && n.cpu.rip == words[k - 7] && n.cpu.rsp == at + STACK - (k - 7)
      && CalleeSaved(n.cpu.gp) == [words[k - 6], words[k - 5], words[k - 4], words[k - 3], words[k - 2], words[k - 1]]
      && forall i :: 0 <= i < k - 7 ==> Load(n.cpu.mem, at + STACK - 1 - i) == words[i]
  {
    var c := Fresh(mem, at, words);
    SwitchResumes(v, t, back, c);
    var n := Next(v, Switch(t, back));
    assert forall a :: c.rsp <= a < at + STACK ==> Load(n.cpu.mem, a) == Load(c.stack, a);
    FreshStack(mem, at, words, c, n.cpu.mem);
  }

  lemma FreshStack(mem: Memory, at: int, words: seq<int>, c: Context, now: Memory)
    requires |words| >= 7 && c == Fresh(mem, at, words) && forall a :: c.rsp <= a < at + STACK ==> Load(now, a) == Load(c.stack, a)
    ensures forall i :: 0 <= i < |words| - 7 ==> Load(now, at + STACK - 1 - i) == words[i]
  {
    forall i | 0 <= i < |words| - 7 ensures Load(now, at + STACK - 1 - i) == words[i] { PushedAt(mem, at + STACK, words, at + STACK - 1 - i); }
  }

  /** A kernel thread first runs at the trampoline, with entry point, argument and itself in registers. */
  lemma NewThreadStarts(w: World, t: Tid, at: int, l: Landing, entry: int, arg: int, self: int, run: seq<Step>, back: int)
    requires var s := Spawn(t, at, ThreadStack(l, entry, arg, self));
      && WorldOk(w) && Feasible(w, s) && FeasibleRun(Next(w, s), run) && Avoids(run, t)
      && Feasible(After(Next(w, s), run), Switch(t, back))
    ensures var n := Next(After(Next(w, Spawn(t, at, ThreadStack(l, entry, arg, self))), run), Switch(t, back));
      && n.cpu.rip == l.thread && n.cpu.gp.r12 == entry && n.cpu.gp.r13 == arg && n.cpu.gp.r14 == self
      && n.cpu.rsp == at + STACK
  {
    var words := ThreadStack(l, entry, arg, self);
    FreshKept(w, t, at, words, run);
    var v := After(Next(w, Spawn(t, at, words)), run);
    ResumeFresh(v, t, at, w.cpu.mem, words, back);
    CalleeSavedAre(Next(v, Switch(t, back)).cpu.gp, 0, 0, entry, arg, self, 0);
  }

  /** A user thread first runs at the user trampoline, with its instruction and stack pointers in registers. */
  lemma UserThreadStarts(w: World, t: Tid, at: int, l: Landing, rip: int, rsp: int, run: seq<Step>, back: int)
    requires var s := Spawn(t, at, UserStack(l, rip, rsp));
      && WorldOk(w) && Feasible(w, s) && FeasibleRun(Next(w, s), run) && Avoids(run, t)
      && Feasible(After(Next(w, s), run), Switch(t, back))
    ensures var n := Next(After(Next(w, Spawn(t, at, UserStack(l, rip, rsp))), run), Switch(t, back));
      n.cpu.rip == l.user && n.cpu.gp.r12 == rip && n.cpu.gp.r13 == rsp && n.cpu.rsp == at + STACK
  {
    var words := UserStack(l, rip, rsp);
    FreshKept(w, t, at, words, run);
    var v := After(Next(w, Spawn(t, at, words)), run);
    ResumeFresh(v, t, at, w.cpu.mem, words, back);
    CalleeSavedAre(Next(v, Switch(t, back)).cpu.gp, 0, 0, rip, rsp, 0, 0);
  }

  lemma CalleeSavedAre(g: Gp, rbp: int, rbx: int, r12: int, r13: int, r14: int, r15: int)
    requires CalleeSaved(g) == [rbp, rbx, r12, r13, r14, r15]
    ensures g.rbp == rbp && g.rbx == rbx && g.r12 == r12 && g.r13 == r13 && g.r14 == r14 && g.r15 == r15
  {
    var s := CalleeSaved(g);
    assert s[0] == rbp && s[1] == rbx && s[2] == r12 && s[3] == r13 && s[4] == r14 && s[5] == r15;
  }

  /** A forked child first runs at ForkReturn, which takes it to user mode with the parent's whole frame,
      except that rax is zero. */
  lemma ForkedChildStarts(w: World, t: Tid, at: int, l: Landing, f: Frame, run: seq<Step>, back: int)
    requires var s := Spawn(t, at, ForkStack(l, f));
      && WorldOk(w) && Feasible(w, s) && FeasibleRun(Next(w, s), run) && Avoids(run, t)
      && Feasible(After(Next(w, s), run), Switch(t, back))
    ensures var n := Next(After(Next(w, Spawn(t, at, ForkStack(l, f))), run), Switch(t, back));
      n.cpu.rip == l.fork && ForkReturn(n.cpu) == f.(gp := f.gp.(rax := 0))
  {
    var words := ForkStack(l, f);
    FreshKept(w, t, at, words, run);
    ResumeForked(After(Next(w, Spawn(t, at, words)), run), t, at, w.cpu.mem, l, f, back);
  }

  lemma ResumeForked(v: World, t: Tid, at: int, mem: Memory, l: Landing, f: Frame, back: int)
    requires WorldOk(v) && Feasible(v, Switch(t, back)) && Suspended(v, t, Fresh(mem, at, ForkStack(l, f))) && v.base[t] == at
    ensures var n := Next(v, Switch(t, back)); n.cpu.rip == l.fork && ForkReturn(n.cpu) == f.(gp := f.gp.(rax := 0))
  {
    var words := ForkStack(l, f);
    assert words[22] == l.fork;
    ResumeFresh(v, t, at, mem, words, back);
    FrameRead(Next(v, Switch(t, back)).cpu, l, f, at + STACK);
  }

  lemma FrameRead(c: Cpu, l: Landing, f: Frame, top: int)
    requires c.rsp == top - 22 && forall i :: 0 <= i < 22 ==> Load(c.mem, top - 1 - i) == ForkStack(l, f)[i]
    ensures ForkReturn(c) == f.(gp := f.gp.(rax := 0))
  {
    var s := ForkStack(l, f);
    assert s[0] == f.ss && s[1] == f.rsp && s[2] == f.rflags && s[3] == f.cs && s[4] == f.rip;
    assert s[7] == 0 && s[8] == f.gp.rbx && s[9] == f.gp.rcx && s[10] == f.gp.rdx && s[11] == f.gp.rsi && s[12] == f.gp.rdi;
    assert s[13] == f.gp.rbp && s[14] == f.gp.r8 && s[15] == f.gp.r9 && s[16] == f.gp.r10 && s[17] == f.gp.r11;
    assert s[18] == f.gp.r12 && s[19] == f.gp.r13 && s[20] == f.gp.r14 && s[21] == f.gp.r15;
  }
}
