/** The scheduler as the kernel runs it: lists and thread records changed in place.
    Each method is proved to compute the function of the same name in `MlfqModel`. */
module Scheduler {
  import M = MlfqModel
  import opened MlfqModel

  class Scheduler {
    /** Thread records by address; the lists link addresses. */
    var threads: map<Tid, Tcb>
    var queues: seq<seq<Tid>>
    var waiting: seq<Tid>
    var dead: seq<Tid>
    var dying: seq<Tid>
    var current: Tid
    var idle: Tid
    var reaper: Tid
    var clock: nat

    ghost function Model(): Sched
      reads this
    {
      Sched(threads, queues, waiting, dead, dying, current, idle, reaper, clock)
    }

    constructor Start(idleTid: Tid, reaperTid: Tid)
      requires idleTid != reaperTid
      ensures Model() == Boot(idleTid, reaperTid)
    {
      threads := map[idleTid := Tcb(Running, NUM_LEVELS - 1, 5, NULL),
                     reaperTid := Tcb(Ready, NUM_LEVELS - 1, Quantum(NUM_LEVELS - 1), NULL)];
      queues := [[], [], [reaperTid]];
      waiting, dead, dying := [], [], [];
      current, idle, reaper, clock := idleTid, idleTid, reaperTid, 0;
    }

    method PopBest() returns (best: Tid)
      requires Shape(Model())
      modifies this`queues
      ensures var s := old(Model()); var l := BestLevel(s.queues);
        if l == NUM_LEVELS then Model() == s && best == idle
        else Model() == Pop(s, l) && best == s.queues[l][0]
    {
      for i := 0 to NUM_LEVELS
        invariant forall k :: 0 <= k < i ==> queues[k] == []
        invariant queues == old(queues)
      {
        if queues[i] != [] {
          best := queues[i][0];
          queues := queues[i := queues[i][1..]];
          return;
        }
      }
      best := idle;
    }

    method Empty() returns (empty: bool)
      requires |queues| == NUM_LEVELS
      ensures empty <==> BestLevel(queues) == NUM_LEVELS
    {
      for i := 0 to NUM_LEVELS
        invariant forall k :: 0 <= k < i ==> queues[k] == []
      {
        if queues[i] != [] { return false; }
      }
      return true;
    }

    method ScheduleLocked()
      requires Shape(Model())
      modifies this
      ensures Model() == M.Schedule(old(Model()))
    {
      var prev := current;
      var next := PopBest();
      if next == prev { return; }
      current := next;
      threads := threads[next := threads[next].(state := Running)];
    }

    /** Make `t` ready at the back of queue `level`. */
    method Enqueue(t: Tid, level: nat)
      requires |queues| == NUM_LEVELS && t in threads && level < NUM_LEVELS
      modifies this`threads, this`queues
      ensures Model() == M.Enqueue(old(Model()), t, level)
    {
      threads := threads[t := threads[t].(state := Ready, level := level, ticks := Quantum(level))];
      queues := queues[level := queues[level] + [t]];
    }

    method AddThread(t: Tid, level: nat)
      requires Shape(Model()) && t !in threads && level < NUM_LEVELS
      modifies this`threads, this`queues
      ensures Model() == M.AddThread(old(Model()), t, level)
    {
      threads := threads[t := FRESH];
      Enqueue(t, level);
    }

    method BoostAll()
      requires Shape(Model())
      modifies this`threads, this`queues
      ensures Model() == M.Boost(old(Model()))
    {
      M.BoostByLevel(Model());
      for i := 1 to NUM_LEVELS
        invariant Shape(Model())
        invariant Model() == if i == 1 then old(Model()) else if i == 2 then M.Promote(old(Model()), 1) else M.Boost(old(Model()))
      {
        PromoteLevel(i);
      }
    }

    /** The inner loop of a boost. */
    method PromoteLevel(i: nat)
      requires Shape(Model()) && 0 < i < NUM_LEVELS
      modifies this`threads, this`queues
      ensures Shape(Model())
      ensures Model() == M.Promote(old(Model()), i)
    {
      while queues[i] != []
        invariant Shape(Model())
        invariant M.Promote(Model(), i) == M.Promote(old(Model()), i)
        decreases |queues[i]|
      {
        M.PromoteFromHead(Model(), i);
        M.PromoteHeadShape(Model(), i);
        var t := queues[i][0];
        queues := queues[i := queues[i][1..]];
        threads := threads[t := threads[t].(level := 0, ticks := Quantum(0))];
        queues := queues[0 := queues[0] + [t]];
      }
      M.PromoteNothing(Model(), i);
    }

    method Tick()
      requires Shape(Model())
      modifies this
      ensures Model() == M.Tick(old(Model()))
    {
      M.AdvanceClockShape(Model());
      clock := NextClock(clock);
      if clock % BOOST_INTERVAL == 0 { BoostAll(); }
      assert Model() == M.AdvanceClock(old(Model()));
      Charge();
    }

    /** The rest of Tick: charge the current thread, or leave the idle thread. */
    method Charge()
      requires Shape(Model())
      modifies this
      ensures Model() == M.Charge(old(Model()))
    {
      if current != idle {
        var c := threads[current];
        threads := threads[current := c.(ticks := c.ticks - 1)];
        if c.ticks - 1 <= 0 {
          var newLevel := c.level + 1;
          if newLevel >= NUM_LEVELS { newLevel := NUM_LEVELS - 1; }
          M.EnqueueResets(old(Model()), current, newLevel, c.ticks - 1);
          M.EnqueueShape(old(Model()), current, newLevel);
          Enqueue(current, newLevel);
          ScheduleLocked();
        }
      } else {
        var empty := Empty();
        if !empty { ScheduleLocked(); }
      }
    }

    method Yield()
      requires Shape(Model())
      modifies this
      ensures Model() == M.Yield(old(Model()))
    {
      if current != idle && threads[current].state == Running {
        M.EnqueueShape(Model(), current, threads[current].level);
        Enqueue(current, threads[current].level);
      }
      ScheduleLocked();
    }

    method Block(channel: Addr)
      requires Shape(Model())
      modifies this
      ensures Model() == M.Block(old(Model()), channel)
    {
      threads := threads[current := threads[current].(state := Blocked, channel := channel)];
      waiting := waiting + [current];
      ScheduleLocked();
    }

    method Wake(channel: Addr, all: bool)
      requires Shape(Model())
      modifies this`waiting, this`threads, this`queues
      ensures Model() == M.Wake(old(Model()), channel, all)
    {
      var i := 0;
      while i < |waiting|
        invariant Shape(Model()) && i <= |waiting|
        invariant M.WakeFrom(Model(), channel, all, i) == M.Wake(old(Model()), channel, all)
        decreases |waiting| - i
      {
        var t := waiting[i];
        if threads[t].channel == channel {
          ghost var s := Model();
          waiting := waiting[..i] + waiting[i + 1..];
          threads := threads[t := threads[t].(channel := NULL)];
          Enqueue(t, threads[t].level);
          assert Model() == M.WakeAt(s, i);
          if !all { return; }
        } else {
          i := i + 1;
        }
      }
    }

    /** The end of the exit system call. */
    method Terminate()
      requires Shape(Model())
      modifies this
      ensures Model() == M.Terminate(old(Model()))
    {
      threads := threads[current := threads[current].(state := Terminated)];
      dead := dead + [current];
      Yield();
    }

    /** The locked part of the reaper's loop: drain the dead list. */
    method Collect()
      modifies this`dead, this`dying
      ensures Model() == M.Collect(old(Model()))
    {
      while dead != []
        invariant dying + dead == old(dying + dead)
        decreases |dead|
      {
        var t := dead[0];
        dead := dead[1..];
        dying := dying + [t];
      }
      assert dying == old(dying) + old(dead);
    }

    /** One iteration of the unlocked part: delete a collected thread. */
    method Free()
      requires dying != []
      modifies this`threads, this`dying
      ensures Model() == M.Free(old(Model()))
    {
      var t := dying[0];
      threads := threads - {t};
      dying := dying[1..];
    }
  }
}
