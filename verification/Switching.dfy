/** The context switch as the processor runs it, push by push and pop by pop, and the stacks that new
    threads are given. */
module Switching {
  import M = SwitchModel
  import opened SwitchModel

  class Processor {
    var gp: Gp
    var rsp: int
    var rip: int
    var mem: Memory

    function Model(): Cpu
      reads this
    {
      Cpu(gp, rsp, rip, mem)
    }

    constructor (c: Cpu)
      ensures Model() == c
    {
      gp, rsp, rip, mem := c.gp, c.rsp, c.rip, c.mem;
    }

    method Push(v: int)
      modifies this`rsp, this`mem
      ensures rsp == old(rsp) - 1 && mem == Store(old(mem), rsp, v)
    {
      rsp := rsp - 1;
      mem := Store(mem, rsp, v);
    }

    method Pop() returns (v: int)
      modifies this`rsp
      ensures v == Load(mem, old(rsp)) && rsp == old(rsp) + 1
    {
      v := Load(mem, rsp);
      rsp := rsp + 1;
    }

    /** The six pushes of the switch. */
    method SaveRegisters()
      modifies this`rsp, this`mem
      ensures rsp == old(rsp) - 6 && mem == Pushed(old(mem), old(rsp), CalleeSaved(gp))
    {
      Push(gp.rbp);
      Push(gp.rbx);
      Push(gp.r12);
      Push(gp.r13);
      Push(gp.r14);
      Push(gp.r15);
      SixPushes(old(mem), old(rsp), gp.rbp, gp.rbx, gp.r12, gp.r13, gp.r14, gp.r15);
    }

    /** Save the current stack pointer in `prev`, go to the stack at `next`, return there. */
    method SwitchContext(prev: Thread, next: int)
      modifies this, prev`rsp
      ensures Model() == SwitchTo(old(Model()), next)
      ensures prev.rsp == old(rsp) - 6
    {
      SaveRegisters();
      prev.rsp := rsp;
      rsp := next;
      RestoreRegisters();
    }

    /** The six pops of the switch, and its return. */
    method RestoreRegisters()
      modifies this`rsp, this`gp, this`rip
      ensures rsp == old(rsp) + 7 && rip == Load(mem, old(rsp) + 6)
      ensures var s := old(rsp);
        gp == old(gp).(r15 := Load(mem, s), r14 := Load(mem, s + 1), r13 := Load(mem, s + 2), r12 := Load(mem, s + 3), rbx := Load(mem, s + 4), rbp := Load(mem, s + 5))
    {
      var v := Pop();
      gp := gp.(r15 := v);
      v := Pop();
      gp := gp.(r14 := v);
      v := Pop();
      gp := gp.(r13 := v);
      v := Pop();
      gp := gp.(r12 := v);
      v := Pop();
      gp := gp.(rbx := v);
      v := Pop();
      gp := gp.(rbp := v);
      rip := Pop();
    }

    /** The first eight pops of ForkReturn. */
    method PopHigh()
      modifies this`rsp, this`gp
      ensures rsp == old(rsp) + 8
      ensures var s := old(rsp);
        gp == old(gp).(r15 := Load(mem, s), r14 := Load(mem, s + 1), r13 := Load(mem, s + 2), r12 := Load(mem, s + 3),
                       r11 := Load(mem, s + 4), r10 := Load(mem, s + 5), r9 := Load(mem, s + 6), r8 := Load(mem, s + 7))
    {
      var v := Pop();
      gp := gp.(r15 := v);
      v := Pop();
      gp := gp.(r14 := v);
      v := Pop();
      gp := gp.(r13 := v);
      v := Pop();
      gp := gp.(r12 := v);
      v := Pop();
      gp := gp.(r11 := v);
      v := Pop();
      gp := gp.(r10 := v);
      v := Pop();
      gp := gp.(r9 := v);
      v := Pop();
      gp := gp.(r8 := v);
    }

    method PopLow()
      modifies this`rsp, this`gp
      ensures rsp == old(rsp) + 7
      ensures var s := old(rsp);
        gp == old(gp).(rbp := Load(mem, s), rdi := Load(mem, s + 1), rsi := Load(mem, s + 2), rdx := Load(mem, s + 3),
                       rcx := Load(mem, s + 4), rbx := Load(mem, s + 5), rax := Load(mem, s + 6))
    {
      var v := Pop();
      gp := gp.(rbp := v);
      v := Pop();
      gp := gp.(rdi := v);
      v := Pop();
      gp := gp.(rsi := v);
      v := Pop();
      gp := gp.(rdx := v);
      v := Pop();
      gp := gp.(rcx := v);
      v := Pop();
      gp := gp.(rbx := v);
      v := Pop();
      gp := gp.(rax := v);
    }

    /** Restore every register, skip two words, and leave for user mode. */
    method ForkReturn() returns (f: Frame)
      modifies this`rsp, this`gp
      ensures f == M.ForkReturn(old(Model()))
    {
      ghost var s := rsp;
      PopHigh();
      PopLow();
      rsp := rsp + 2;
      assert rsp == s + 17;
      f := InterruptReturn();
    }

    /** The five words of iretq. */
    method InterruptReturn() returns (f: Frame)
      modifies this`rsp
      ensures var s := old(rsp); f == Frame(gp, Load(mem, s), Load(mem, s + 1), Load(mem, s + 2), Load(mem, s + 3), Load(mem, s + 4))
    {
      var ip := Pop();
      var cs := Pop();
      var flags := Pop();
      var sp := Pop();
      var ss := Pop();
      f := Frame(gp, ip, cs, flags, sp, ss);
    }
  }

  class Thread {
    /** The lowest word of the kernel stack. */
    const stack: int
    var rsp: int

    constructor (stack: int)
      ensures this.stack == stack && rsp == stack + STACK
    {
      this.stack := stack;
      rsp := stack + STACK;
    }

    /** Push words on this thread's stack from another thread: the processor's own registers stay. */
    method Prepare(cpu: Processor, top: int, words: seq<int>)
      modifies this`rsp, cpu`mem
      ensures rsp == top - |words| && cpu.mem == Pushed(old(cpu.mem), top, words)
    {
      var sp := top;
      for i := 0 to |words|
        invariant sp == top - i && cpu.mem == Pushed(old(cpu.mem), top, words[..i])
      {
        assert words[..i + 1] == words[..i] + [words[i]];
        PushedMore(old(cpu.mem), top, words[..i], words[i]);
        sp := sp - 1;
        cpu.mem := Store(cpu.mem, sp, words[i]);
      }
      assert words[..|words|] == words;
      rsp := sp;
    }

    method InitializeStack(cpu: Processor, l: Landing, entry: int, arg: int, self: int)
      modifies this`rsp, cpu`mem
      ensures rsp == old(rsp) - 7 && cpu.mem == Pushed(old(cpu.mem), old(rsp), ThreadStack(l, entry, arg, self))
    {
      Prepare(cpu, rsp, [l.thread, 0, 0, entry, arg, self, 0]);
    }

    method InitializeUserStack(cpu: Processor, l: Landing, rip: int, sp: int)
      modifies this`rsp, cpu`mem
      ensures rsp == old(rsp) - 7 && cpu.mem == Pushed(old(cpu.mem), old(rsp), UserStack(l, rip, sp))
    {
      Prepare(cpu, rsp, [l.user, 0, 0, rip, sp, 0, 0]);
    }

    method InitializeForkStack(cpu: Processor, l: Landing, f: Frame)
      modifies this`rsp, cpu`mem
      ensures rsp == stack + STACK - 29 && cpu.mem == Pushed(old(cpu.mem), stack + STACK, ForkStack(l, f))
    {
      var iret := [f.ss, f.rsp, f.rflags, f.cs, f.rip];
      var gp := f.gp;
      var registers := [0, gp.rbx, gp.rcx, gp.rdx, gp.rsi, gp.rdi, gp.rbp, gp.r8, gp.r9, gp.r10, gp.r11, gp.r12, gp.r13, gp.r14, gp.r15];
      Prepare(cpu, stack + STACK, iret + [0, 0] + registers + [l.fork, 0, 0, 0, 0, 0, 0]);
    }
  }

  lemma PushedMore(mem: Memory, sp: int, words: seq<int>, v: int)
    ensures Pushed(mem, sp, words + [v]) == Store(Pushed(mem, sp, words), sp - |words| - 1, v)
  {
    assert (words + [v])[..|words|] == words;
  }

  lemma SixPushes(mem: Memory, sp: int, a: int, b: int, c: int, d: int, e: int, f: int)
    ensures Pushed(mem, sp, [a, b, c, d, e, f]) ==
      Store(Store(Store(Store(Store(Store(mem, sp - 1, a), sp - 2, b), sp - 3, c), sp - 4, d), sp - 5, e), sp - 6, f)
  {
    PushedMore(mem, sp, [], a);
    PushedMore(mem, sp, [a], b);
    PushedMore(mem, sp, [a, b], c);
    PushedMore(mem, sp, [a, b, c], d);
    PushedMore(mem, sp, [a, b, c, d], e);
    PushedMore(mem, sp, [a, b, c, d, e], f);
    assert [] + [a] == [a] && [a] + [b] == [a, b] && [a, b] + [c] == [a, b, c] && [a, b, c] + [d] == [a, b, c, d];
    assert [a, b, c, d] + [e] == [a, b, c, d, e] && [a, b, c, d, e] + [f] == [a, b, c, d, e, f];
  }
}
