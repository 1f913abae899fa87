/** What the scheduler guarantees over whole runs: single residence, conservation of threads and
    bounded waiting. */
module MlfqRuns {
  import opened MlfqModel
  import opened MlfqInvariants
  import MlfqStatus

  // ---- Runs -----------------------------------------------------------------------------------

  ghost predicate Feasible(s: Sched, run: seq<Step>)
    decreases |run|
  {
    run != [] ==> Shape(s) && Enabled(s, run[0]) && Feasible(Next(s, run[0]), run[1..])
  }

  ghost function After(s: Sched, run: seq<Step>): Sched
    requires Feasible(s, run)
    decreases |run|
  {
    if run == [] then s else After(Next(s, run[0]), run[1..])
  }

  ghost function Ticks(run: seq<Step>): nat {
    if run == [] then 0 else (if run[0] == TickStep then 1 else 0) + Ticks(run[1..])
  }

  /** Some Yield of the run is issued by a worker left in state Ready. */
  ghost predicate LosesAThread(s: Sched, run: seq<Step>)
    requires Feasible(s, run)
    decreases |run|
  {
    run != [] && (Loses(s, run[0]) || LosesAThread(Next(s, run[0]), run[1..]))
  }

  /** Taking one more step at the front of a prefix. */
  lemma PrefixStep(s: Sched, run: seq<Step>, j: nat)
    requires run != [] && Feasible(s, run) && j < |run| && Feasible(Next(s, run[0]), run[1..][..j])
    ensures Feasible(s, run[..j + 1]) && After(s, run[..j + 1]) == After(Next(s, run[0]), run[1..][..j])
    ensures Ticks(run[..j + 1]) == Ticks([run[0]]) + Ticks(run[1..][..j])
  {
    assert run[..j + 1][0] == run[0] && run[..j + 1][1..] == run[1..][..j];
    assert [run[0]][1..] == [];
  }

  lemma BootInv(idle: Tid, reaper: Tid)
    requires idle != reaper
    ensures Inv(Boot(idle, reaper)) && Conserved(Boot(idle, reaper))
  {
    var s := Boot(idle, reaper);
    forall t ensures Coherent(s, t) && (Worker(s, t) ==> Places(s, t) == 1) {
      assert Count([reaper], t) == (if t == reaper then 1 else 0) + Count([], t);
    }
  }

  /** Single residence after any run, and the exact condition for conservation: after a run from
      a conserving state every thread is still in exactly one place if and only if no Yield of
      the run was issued by a worker left in state Ready. */
  lemma {:induction false} RunKeeps(s: Sched, run: seq<Step>)
    requires Inv(s) && Feasible(s, run)
    ensures Inv(After(s, run))
    ensures Conserved(After(s, run)) <==> Conserved(s) && !LosesAThread(s, run)
    decreases |run|
  {
    if run != [] {
      StepKeeps(s, run[0]);
      RunKeeps(Next(s, run[0]), run[1..]);
    }
  }

  /** A Yield by a Running worker comes straight back, leaving the worker in state Ready and on
      no list, exactly when no other thread is queued at its level or above. */
  lemma YieldReturnsToCaller(s: Sched)
    requires Inv(s) && s.current != s.idle && s.threads[s.current].state == Running
    ensures Shape(s) && s.threads[s.current].level < NUM_LEVELS
    ensures Yield(s).current == s.current <==> BestLevel(s.queues) > s.threads[s.current].level
    ensures Yield(s).current == s.current ==>
              Yield(s).threads[s.current].state == Ready && Links(Yield(s), s.current) == 0
  {
    InvShape(s);
    assert Coherent(s, s.current);
    var level := s.threads[s.current].level;
    var e := Enqueue(s, s.current, level);
    YieldKeeps(s);
    assert Coherent(Yield(s), s.current);
    var l := BestLevel(s.queues);
    if l <= level {
      assert e.queues[l][0] == s.queues[l][0];
      assert BestLevel(e.queues) == l;
      CountIn(s.queues[l], s.queues[l][0]);
    }
  }

  /** A thread added to an idle machine at the top level runs from the first tick on. */
  lemma AddedThreadRuns() returns (s1: Sched, s2: Sched)
    ensures Inv(Boot(0, 1)) && Shape(Boot(0, 1)) && s1 == Next(Boot(0, 1), AddStep(2, 0))
    ensures Inv(s1) && Shape(s1) && s2 == Next(s1, TickStep)
    ensures Inv(s2) && s2.idle == 0 && s2.current == 2 && s2.threads[2] == Tcb(Running, 0, 5, NULL) && BestLevel(s2.queues) == 2
  {
    var s := Boot(0, 1);
    BootInv(0, 1);
    StepKeeps(s, AddStep(2, 0));
    s1 := Next(s, AddStep(2, 0));
    assert s1.queues[0] == [2] && s1.queues[1] == [] && s1.queues[2] == [1];
    StepKeeps(s1, TickStep);
    s2 := Next(s1, TickStep);
  }

  /** Two Yields in a row by a thread that is alone at its level lose it: the first returns to the
      caller in state Ready, the second files nothing. */
  lemma TwoYieldsLoseAThread()
    ensures var s := Boot(0, 1);
      var run := [AddStep(2, 0), TickStep, YieldStep, YieldStep];
      && Feasible(s, run)
      && var r := After(s, run);
      && |r.queues| == NUM_LEVELS && Worker(r, 2) && Places(r, 2) == 0 && !Conserved(r)
  {
    var s := Boot(0, 1);
    var s1, s2 := AddedThreadRuns();
    YieldReturnsToCaller(s2);
    YieldKeeps(s2);
    var s3 := Next(s2, YieldStep);
    YieldKeeps(s3);
    var s4 := Next(s3, YieldStep);
    var run := [AddStep(2, 0), TickStep, YieldStep, YieldStep];
    assert run[1..] == [TickStep, YieldStep, YieldStep] && run[1..][1..] == [YieldStep, YieldStep];
    assert run[1..][1..][1..] == [YieldStep] && run[1..][1..][1..][1..] == [];
    assert Feasible(s4, []) && After(s4, []) == s4;
    assert Feasible(s3, [YieldStep]) && After(s3, [YieldStep]) == s4;
    assert Feasible(s2, [YieldStep, YieldStep]) && After(s2, [YieldStep, YieldStep]) == s4;
    assert Feasible(s1, [TickStep, YieldStep, YieldStep]) && After(s1, [TickStep, YieldStep, YieldStep]) == s4;
    assert Worker(s4, 2);
  }

  // ---- Lost threads -----------------------------------------------------------------------------

  /** A worker on no list and not on the CPU. */
  ghost predicate Lost(s: Sched, t: Tid) { |s.queues| == NUM_LEVELS && Worker(s, t) && Places(s, t) == 0 }

  lemma LostStep(s: Sched, e: Step, t: Tid)
    requires Inv(s) && Shape(s) && Enabled(s, e) && Lost(s, t)
    ensures Lost(Next(s, e), t)
  {
    match e
    case TickStep => TickKeeps(s);
    case YieldStep => YieldKeeps(s);
    case BlockStep(channel) => BlockKeeps(s, channel);
    case WakeStep(channel, all) => WakeFromKeeps(s, channel, all, 0);
    case AddStep(u, level) => AddKeeps(s, u, level);
    case ExitStep => TerminateKeeps(s);
    case CollectStep => CollectKeeps(s);
    case FreeStep => FreeKeeps(s); assert Count(s.dying, s.dying[0]) > 0;
  }

  lemma SameReaper(s: Sched, e: Step)
    requires Inv(s) && Shape(s) && Enabled(s, e)
    ensures Next(s, e).reaper == s.reaper
  {
    match e
    case WakeStep(channel, all) => MlfqStatus.WakeFromStatus(s, channel, all, 0);
    case _ =>
  }

  /** Nothing ever brings a lost thread back: no run gives it the CPU again. */
  lemma {:induction false} LostForever(s: Sched, run: seq<Step>, t: Tid)
    requires Inv(s) && Feasible(s, run) && Lost(s, t)
    ensures NeverCurrent(s, run, t) && Lost(After(s, run), t)
    decreases |run|
  {
    if run != [] {
      LostStep(s, run[0], t);
      StepKeeps(s, run[0]);
      LostForever(Next(s, run[0]), run[1..], t);
    }
  }

  /** Without the reaper no dead thread is ever drained or freed. */
  lemma {:induction false} LostReaperFreesNothing(s: Sched, run: seq<Step>)
    requires Inv(s) && Feasible(s, run) && Lost(s, s.reaper)
    ensures forall i :: 0 <= i < |run| ==> run[i] != CollectStep && run[i] != FreeStep
    decreases |run|
  {
    if run != [] {
      LostStep(s, run[0], s.reaper);
      SameReaper(s, run[0]);
      StepKeeps(s, run[0]);
      LostReaperFreesNothing(Next(s, run[0]), run[1..]);
    }
  }

  /** The reaper's own loop, which drains the dead list and yields, loses the reaper when it is alone: after
      boot, one tick and two turns of the loop it is on no list, and in no continuation does it run again. */
  lemma ReaperLosesItself(idle: Tid, reaper: Tid, more: seq<Step>)
    requires idle != reaper
    ensures var run := [TickStep, CollectStep, YieldStep, CollectStep, YieldStep];
      && Feasible(Boot(idle, reaper), run) && Inv(After(Boot(idle, reaper), run)) && Lost(After(Boot(idle, reaper), run), reaper)
      && (Feasible(After(Boot(idle, reaper), run), more) ==>
        && NeverCurrent(After(Boot(idle, reaper), run), more, reaper)
        && forall i :: 0 <= i < |more| ==> more[i] != CollectStep && more[i] != FreeStep)
  {
    var s1 := ReaperTicks(idle, reaper);
    var s3 := TwoTurns(s1);
    var run := [TickStep, CollectStep, YieldStep, CollectStep, YieldStep];
    assert run[1..] == [CollectStep, YieldStep, CollectStep, YieldStep];
    if Feasible(s3, more) {
      LostForever(s3, more, reaper);
      LostReaperFreesNothing(s3, more);
    }
  }

  lemma TwoTurns(s1: Sched) returns (s3: Sched)
    requires Inv(s1) && Shape(s1) && s1.idle != s1.reaper == s1.current && s1.dead == []
    requires s1.threads[s1.reaper].state == Running && BestLevel(s1.queues) == NUM_LEVELS
    ensures var run := [CollectStep, YieldStep, CollectStep, YieldStep]; Feasible(s1, run) && After(s1, run) == s3
    ensures Inv(s3) && s3.reaper == s1.reaper && Lost(s3, s1.reaper)
  {
    YieldReturnsToCaller(s1);
    YieldKeeps(s1);
    var s2 := Next(s1, YieldStep);
    YieldKeeps(s2);
    s3 := Next(s2, YieldStep);
    assert Feasible(s3, []) && After(s3, []) == s3;
    EmptyTurn(s2, []);
    EmptyTurn(s1, [CollectStep, YieldStep]);
    assert Worker(s3, s1.reaper);
  }

  /** A turn of the reaper's loop with no dead thread is a Yield. */
  lemma EmptyTurn(s: Sched, more: seq<Step>)
    requires Shape(s) && s.current == s.reaper && s.dead == []
    requires Feasible(Next(s, YieldStep), more)
    ensures var run := [CollectStep, YieldStep] + more; Feasible(s, run) && After(s, run) == After(Next(s, YieldStep), more)
  {
    assert s.dying + s.dead == s.dying;
    assert Next(s, CollectStep) == s;
    var run := [CollectStep, YieldStep] + more;
    assert run[1..] == [YieldStep] + more && run[1..][1..] == more;
  }

  /** The first tick gives the reaper the CPU. */
  lemma ReaperTicks(idle: Tid, reaper: Tid) returns (s1: Sched)
    requires idle != reaper
    ensures Inv(Boot(idle, reaper)) && Shape(Boot(idle, reaper)) && s1 == Next(Boot(idle, reaper), TickStep)
    ensures Inv(s1) && Shape(s1) && s1.idle == idle && s1.reaper == reaper && s1.current == reaper
    ensures s1.threads[reaper].state == Running && s1.threads[reaper].level == 2 && BestLevel(s1.queues) == 3 && s1.dead == []
  {
    BootInv(idle, reaper);
    StepKeeps(Boot(idle, reaper), TickStep);
    s1 := Next(Boot(idle, reaper), TickStep);
    InvShape(s1);
  }

  // ---- Bounded waiting --------------------------------------------------------------------------

  ghost predicate Queued(s: Sched, t: Tid)
    requires |s.queues| == NUM_LEVELS
  {
    QueueCount(s.queues, t) > 0
  }

  /** Position of `t` in a queue that holds it: how many threads are ahead of it. */
  ghost function Ahead(q: seq<Tid>, t: Tid): (k: nat)
    requires Count(q, t) > 0
    ensures k < |q| && q[k] == t
  {
    if q[0] == t then 0 else 1 + Ahead(q[1..], t)
  }

  /** Ticks until the current thread must give way: the idle thread does so at the next tick. */
  ghost function Left(s: Sched): int
    requires s.current in s.threads
  {
    if s.current == s.idle then 1 else s.threads[s.current].ticks
  }

  /** Ticks until the next boost; the 64-bit counter also boosts when it wraps to zero. */
  ghost function ToBoost(s: Sched): int {
    var a := BOOST_INTERVAL - s.clock % BOOST_INTERVAL;
    if s.clock + a <= U64 then a else U64 - s.clock
  }

  ghost predicate OnTop(s: Sched, t: Tid)
    requires |s.queues| == NUM_LEVELS
  {
    Count(s.queues[0], t) > 0
  }

  /** The waiting measure once `t` is on the top level. */
  ghost function Rank(s: Sched, t: Tid): int
    requires |s.queues| == NUM_LEVELS && s.current in s.threads && OnTop(s, t)
  {
    Left(s) + Quantum(0) * Ahead(s.queues[0], t)
  }

  lemma {:induction false} AheadAppend(q: seq<Tid>, b: seq<Tid>, t: Tid)
    requires Count(q, t) > 0
    ensures Count(q + b, t) > 0 && Ahead(q + b, t) == Ahead(q, t)
  {
    CountAppend(q, b, t);
    if q[0] != t {
      assert (q + b)[1..] == q[1..] + b;
      AheadAppend(q[1..], b, t);
    }
  }

  lemma LeftBounds(s: Sched)
    requires Inv(s)
    ensures 1 <= Left(s) <= 20
  {
    assert Coherent(s, s.current);
  }

  /** With `t` on the top level a reschedule takes the head of the top queue. */
  lemma ScheduleOnTop(s: Sched, t: Tid)
    requires ReadyToSwitch(s) && Shape(s) && OnTop(s, t) && s.queues[0][0] != s.current
    requires Schedule(s).current != t
    ensures OnTop(Schedule(s), t)
    ensures Rank(Schedule(s), t) == Quantum(0) * Ahead(s.queues[0], t)
  {
    var next := s.queues[0][0];
    assert BestLevel(s.queues) == 0;
    CountIn(s.queues[0], next);
    assert Filed(s, next);
    assert Schedule(s).queues[0] == s.queues[0][1..];
  }

  lemma NotQueued(s: Sched, t: Tid)
    requires Inv(s) && OnTop(s, t)
    ensures s.queues[0][0] != s.current
  {
    CountIn(s.queues[0], s.queues[0][0]);
    assert Coherent(s, s.queues[0][0]);
  }

  lemma ScheduleAfterEnqueueOnTop(s: Sched, level: nat, t: Tid)
    requires Inv(s) && s.current != s.idle && level < NUM_LEVELS && OnTop(s, t)
    ensures Shape(Enqueue(s, s.current, level))
    ensures var r := Schedule(Enqueue(s, s.current, level));
      r.current != t ==> r.current in r.threads && |r.queues| == NUM_LEVELS && OnTop(r, t)
                         && Rank(r, t) == Quantum(0) * Ahead(s.queues[0], t)
  {
    EnqueueCurrent(s, level);
    var e := Enqueue(s, s.current, level);
    ReadyShape(e);
    NotQueued(s, t);
    AheadAppend(s.queues[0], [s.current], t);
    if Schedule(e).current != t { ScheduleOnTop(e, t); }
  }

  lemma AdvanceClockRank(s: Sched, t: Tid)
    requires Inv(s) && OnTop(s, t)
    ensures var r := AdvanceClock(s);
      Inv(r) && r.current == s.current && r.idle == s.idle && OnTop(r, t) && Rank(r, t) == Rank(s, t)
  {
    AdvanceClockKeeps(s);
    AheadAppend(s.queues[0], s.queues[1] + s.queues[2], t);
    assert s.queues[0] + (s.queues[1] + s.queues[2]) == s.queues[0] + s.queues[1] + s.queues[2];
  }

  lemma ChargeRank(s: Sched, t: Tid)
    requires Inv(s) && OnTop(s, t) && Shape(s) && Charge(s).current != t
    ensures Inv(Charge(s)) && OnTop(Charge(s), t) && Rank(Charge(s), t) == Rank(s, t) - 1
  {
    ChargeKeeps(s);
    assert Coherent(s, s.current);
    var c := s.threads[s.current];
    if s.current != s.idle {
      if c.ticks - 1 <= 0 { ScheduleAfterEnqueueOnTop(s, Demoted(c.level), t); }
    } else {
      forall u ensures Filed(s, u) { assert Coherent(s, u); }
      NotQueued(s, t);
      ScheduleOnTop(s, t);
    }
  }

  lemma YieldRank(s: Sched, t: Tid)
    requires Inv(s) && OnTop(s, t) && Shape(s) && Yield(s).current != t
    ensures Inv(Yield(s)) && OnTop(Yield(s), t) && Rank(Yield(s), t) < Rank(s, t)
  {
    YieldKeeps(s);
    LeftBounds(s);
    assert Coherent(s, s.current);
    if s.current != s.idle && s.threads[s.current].state == Running {
      ScheduleAfterEnqueueOnTop(s, s.threads[s.current].level, t);
    } else {
      forall u ensures Filed(s, u) { assert Coherent(s, u); }
      NotQueued(s, t);
      ScheduleOnTop(s, t);
    }
  }

  lemma BlockRank(s: Sched, channel: Addr, t: Tid)
    requires Inv(s) && OnTop(s, t) && Shape(s) && s.current != s.idle && Block(s, channel).current != t
    ensures Inv(Block(s, channel)) && OnTop(Block(s, channel), t) && Rank(Block(s, channel), t) < Rank(s, t)
  {
    BlockKeeps(s, channel);
    LeftBounds(s);
    NotQueued(s, t);
    var r := s.(threads := s.threads[s.current := s.threads[s.current].(state := Blocked, channel := channel)],
                waiting := s.waiting + [s.current]);
    assert Schedule(r).queues[0] == s.queues[0][1..];
    CountIn(s.queues[0], s.queues[0][0]);
    assert Coherent(s, s.queues[0][0]);
  }

  lemma TerminateRank(s: Sched, t: Tid)
    requires Inv(s) && OnTop(s, t) && Shape(s) && s.current != s.idle && s.current != s.reaper
    requires Terminate(s).current != t
    ensures Inv(Terminate(s)) && OnTop(Terminate(s), t) && Rank(Terminate(s), t) < Rank(s, t)
  {
    TerminateKeeps(s);
    LeftBounds(s);
    NotQueued(s, t);
    assert Terminate(s).queues[0] == s.queues[0][1..];
    CountIn(s.queues[0], s.queues[0][0]);
    assert Coherent(s, s.queues[0][0]);
  }

  lemma WakeAtRank(s: Sched, i: nat, t: Tid)
    requires Inv(s) && OnTop(s, t) && Shape(s) && i < |s.waiting|
    ensures var r := WakeAt(s, i); Inv(r) && r.current == s.current && OnTop(r, t) && Rank(r, t) == Rank(s, t)
  {
    WakeAtKeeps(s, i);
    var t0 := s.waiting[i];
    CountIn(s.waiting, t0);
    assert Coherent(s, t0);
    AheadAppend(s.queues[0], [t0], t);
  }

  lemma {:induction false} WakeFromRank(s: Sched, channel: Addr, all: bool, i: nat, t: Tid)
    requires Inv(s) && OnTop(s, t) && Shape(s) && i <= |s.waiting|
    ensures var r := WakeFrom(s, channel, all, i); Inv(r) && r.current == s.current && OnTop(r, t) && Rank(r, t) == Rank(s, t)
    decreases |s.waiting| - i
  {
    if i < |s.waiting| {
      if s.threads[s.waiting[i]].channel != channel {
        WakeFromRank(s, channel, all, i + 1, t);
      } else {
        WakeAtRank(s, i, t);
        if all { WakeFromRank(WakeAt(s, i), channel, all, i, t); }
      }
    }
  }

  ghost function Cost(e: Step): nat { if e == TickStep then 1 else 0 }

  /** Once `t` is on the top level no step moves it back, and every tick brings it closer. */
  lemma TopStep(s: Sched, e: Step, t: Tid)
    requires Inv(s) && Shape(s) && Enabled(s, e) && OnTop(s, t) && Next(s, e).current != t
    ensures Inv(Next(s, e)) && OnTop(Next(s, e), t) && Rank(Next(s, e), t) + Cost(e) <= Rank(s, t)
  {
    StepKeeps(s, e);
    match e
    case TickStep =>
      AdvanceClockRank(s, t);
      AdvanceClockShape(s);
      ChargeRank(AdvanceClock(s), t);
    case YieldStep => YieldRank(s, t);
    case BlockStep(channel) => BlockRank(s, channel, t);
    case WakeStep(channel, all) => WakeFromRank(s, channel, all, 0, t);
    case AddStep(u, level) => AheadAppend(s.queues[0], [u], t);
    case ExitStep => TerminateRank(s, t);
    case CollectStep =>
    case FreeStep => assert Coherent(s, s.dying[0]);
  }

  /** `t` is not on the CPU in any state of the run, its first state included. */
  ghost predicate NeverCurrent(s: Sched, run: seq<Step>, t: Tid)
    requires Feasible(s, run)
    decreases |run|
  {
    s.current != t && (run != [] ==> NeverCurrent(Next(s, run[0]), run[1..], t))
  }

  /** From the top level: a run that never gives `t` the CPU has fewer ticks than the current
      thread has left plus five for each thread ahead of `t`. */
  lemma {:induction false} TopWait(s: Sched, run: seq<Step>, t: Tid)
    requires Inv(s) && Feasible(s, run) && OnTop(s, t) && NeverCurrent(s, run, t)
    ensures Ticks(run) < Rank(s, t)
    decreases |run|
  {
    LeftBounds(s);
    if run != [] {
      TopStep(s, run[0], t);
      TopWait(Next(s, run[0]), run[1..], t);
    }
  }

  // ---- Waiting below the top level ----------------------------------------------------------------

  lemma {:induction false} WakeFromRecord(s: Sched, channel: Addr, all: bool, i: nat, t: Tid)
    requires Inv(s) && Shape(s) && i <= |s.waiting| && Queued(s, t) && t in s.threads
    ensures var r := WakeFrom(s, channel, all, i); t in r.threads && r.threads[t] == s.threads[t] && r.clock == s.clock
    decreases |s.waiting| - i
  {
    assert Coherent(s, t);
    if i < |s.waiting| {
      if s.threads[s.waiting[i]].channel != channel {
        WakeFromRecord(s, channel, all, i + 1, t);
      } else {
        var t0 := s.waiting[i];
        CountIn(s.waiting, t0);
        WakeAtKeeps(s, i);
        PushCount(s.queues, s.threads[t0].level, t0, t);
        if all { WakeFromRecord(WakeAt(s, i), channel, all, i, t); }
      }
    }
  }

  ghost predicate Boosts(s: Sched, e: Step) {
    e == TickStep && NextClock(s.clock) % BOOST_INTERVAL == 0
  }

  lemma AdvanceClockRecord(s: Sched, t: Tid)
    requires Inv(s) && Queued(s, t) && t in s.threads
    ensures var a := AdvanceClock(s);
      && t in a.threads && a.threads[t].state == Ready && a.clock == NextClock(s.clock)
      && (Boosts(s, TickStep) ==> a.threads[t].level == 0)
      && (!Boosts(s, TickStep) ==> a.threads[t] == s.threads[t])
  {
    assert Coherent(s, t);
    CountIn(s.queues[1], t);
    CountIn(s.queues[2], t);
  }

  /** Charging the current thread leaves the record of every thread off the CPU alone. */
  lemma ChargeRecord(s: Sched, t: Tid)
    requires Shape(s) && t in s.threads && t != s.current && Charge(s).current != t
    ensures t in Charge(s).threads && Charge(s).threads[t] == s.threads[t] && Charge(s).clock == s.clock
  {}

  lemma ScheduleRecord(s: Sched, t: Tid)
    requires Shape(s) && t in s.threads && Schedule(s).current != t
    ensures t in Schedule(s).threads && Schedule(s).threads[t] == s.threads[t] && Schedule(s).clock == s.clock
  {}

  /** What a step that does not give `t` the CPU does to the record of a queued `t`. */
  lemma StepRecord(s: Sched, e: Step, t: Tid)
    requires Inv(s) && Shape(s) && Enabled(s, e) && Queued(s, t) && t in s.threads && t != s.current && Next(s, e).current != t
    ensures t in Next(s, e).threads && Next(s, e).threads[t].state == Ready
    ensures Boosts(s, e) ==> Next(s, e).threads[t].level == 0
    ensures Next(s, e).clock == if e == TickStep then NextClock(s.clock) else s.clock
  {
    assert Coherent(s, t);
    match e
    case TickStep =>
      AdvanceClockRecord(s, t);
      AdvanceClockShape(s);
      ChargeRecord(AdvanceClock(s), t);
    case YieldStep =>
      if s.current != s.idle && s.threads[s.current].state == Running {
        EnqueueShape(s, s.current, s.threads[s.current].level);
        ScheduleRecord(Enqueue(s, s.current, s.threads[s.current].level), t);
      } else {
        ScheduleRecord(s, t);
      }
    case WakeStep(channel, all) => WakeFromRecord(s, channel, all, 0, t);
    case FreeStep => assert Count(s.dying, s.dying[0]) > 0;
    case _ =>
  }

  lemma StepPlaces(s: Sched, e: Step, t: Tid)
    requires Inv(s) && Shape(s) && Enabled(s, e) && Queued(s, t) && t in s.threads
    ensures |Next(s, e).queues| == NUM_LEVELS && Places(Next(s, e), t) == 1
  {
    assert Coherent(s, t);
    match e
    case TickStep => TickKeeps(s);
    case YieldStep => YieldKeeps(s);
    case BlockStep(channel) => BlockKeeps(s, channel);
    case WakeStep(channel, all) => WakeFromKeeps(s, channel, all, 0);
    case AddStep(u, level) => AddKeeps(s, u, level);
    case ExitStep => TerminateKeeps(s);
    case CollectStep => CollectKeeps(s);
    case FreeStep => FreeKeeps(s); assert Count(s.dying, s.dying[0]) > 0;
  }

  lemma ModStep(c: nat)
    ensures c % BOOST_INTERVAL < BOOST_INTERVAL
    ensures (c + 1) % BOOST_INTERVAL == if c % BOOST_INTERVAL == BOOST_INTERVAL - 1 then 0 else c % BOOST_INTERVAL + 1
  {
    var q := c / BOOST_INTERVAL;
    assert c == BOOST_INTERVAL * q + c % BOOST_INTERVAL;
  }

  /** A boost is due within BOOST_INTERVAL ticks, and each tick that does not boost brings it nearer. */
  lemma ToBoostTick(clock: nat, s: Sched)
    requires clock < U64 && s.clock == clock
    ensures 1 <= ToBoost(s) <= BOOST_INTERVAL
    ensures !Boosts(s, TickStep) ==> ToBoost(s.(clock := NextClock(clock))) + 1 == ToBoost(s)
  {
    ModStep(clock);
  }

  lemma ToBoostPositive(s: Sched)
    requires s.clock < U64
    ensures ToBoost(s) >= 1
  {
    ToBoostTick(s.clock, s);
  }

  lemma QueuedKept(s: Sched, e: Step, t: Tid)
    requires Inv(s) && Shape(s) && Enabled(s, e) && Queued(s, t) && t in s.threads && Next(s, e).current != t
    ensures var r := Next(s, e); Inv(r) && t in r.threads && Queued(r, t) && (Boosts(s, e) ==> OnTop(r, t))
    ensures Next(s, e).clock == if e == TickStep then NextClock(s.clock) else s.clock
  {
    assert Coherent(s, t);
    StepKeeps(s, e);
    StepRecord(s, e, t);
    StepPlaces(s, e, t);
    assert Coherent(Next(s, e), t);
  }

  /** A queued thread stays queued until it gets the CPU, and a boost takes it to the top. */
  lemma QueuedStep(s: Sched, e: Step, t: Tid)
    requires Inv(s) && Shape(s) && Enabled(s, e) && Queued(s, t) && t in s.threads && Next(s, e).current != t
    ensures var r := Next(s, e);
      && Inv(r) && t in r.threads && Queued(r, t)
      && (OnTop(r, t) || ToBoost(r) + Cost(e) == ToBoost(s))
  {
    QueuedKept(s, e, t);
    ToBoostTick(s.clock, s);
  }

  /** From below the top level: a run that never gives `t` the CPU either has fewer ticks than
      remain to the next boost, or takes `t` to the top level within that many ticks, after which
      fewer ticks follow than the current thread's quantum plus five per thread ahead of `t`. */
  lemma {:induction false} LowWait(s: Sched, run: seq<Step>, t: Tid) returns (i: nat)
    requires Inv(s) && Feasible(s, run) && Queued(s, t) && t in s.threads && NeverCurrent(s, run, t)
    ensures i <= |run| && Ticks(run) == Ticks(run[..i]) + Ticks(run[i..]) && Ticks(run[..i]) <= ToBoost(s)
    ensures Feasible(s, run[..i])
    ensures OnTop(s, t) ==> i == 0
    ensures (i == |run| && Ticks(run) < ToBoost(s)) ||
            (var top := After(s, run[..i]);
              Inv(top) && OnTop(top, t) && Ticks(run[i..]) < 20 + Quantum(0) * Ahead(top.queues[0], t))
    decreases |run|
  {
    ToBoostTick(s.clock, s);
    if OnTop(s, t) {
      i := 0;
      assert run[..0] == [] && run[0..] == run;
      TopWait(s, run, t);
      LeftBounds(s);
    } else if run == [] {
      i := 0;
      assert run[..0] == [] && run[0..] == [];
    } else {
      var r := Next(s, run[0]);
      QueuedStep(s, run[0], t);
      var j := LowWait(r, run[1..], t);
      i := j + 1;
      PrefixStep(s, run, j);
      assert run[i..] == run[1..][j..];
    }
  }

  lemma {:induction false} FirstCurrent(s: Sched, run: seq<Step>, t: Tid) returns (i: nat)
    requires Feasible(s, run) && !NeverCurrent(s, run, t)
    ensures i <= |run| && Feasible(s, run[..i]) && After(s, run[..i]).current == t
    decreases |run|
  {
    if s.current == t {
      i := 0;
      assert run[..0] == [];
    } else {
      var j := FirstCurrent(Next(s, run[0]), run[1..], t);
      i := j + 1;
      PrefixStep(s, run, j);
    }
  }

  /** When `t` first is on the top level, at most `k` threads are ahead of it there. */
  ghost predicate AheadOnTop(s: Sched, run: seq<Step>, t: Tid, k: nat)
    requires Feasible(s, run)
    decreases |run|
  {
    && |s.queues| == NUM_LEVELS
    && if OnTop(s, t) then Ahead(s.queues[0], t) <= k else run != [] ==> AheadOnTop(Next(s, run[0]), run[1..], t, k)
  }

  lemma RankBound(s: Sched, t: Tid, k: nat)
    requires Inv(s) && OnTop(s, t) && Ahead(s.queues[0], t) <= k
    ensures Rank(s, t) <= 20 + Quantum(0) * k
  {
    LeftBounds(s);
  }

  /** A run that never gives a queued thread the CPU is short. */
  lemma {:induction false} StarvedRunIsShort(s: Sched, run: seq<Step>, t: Tid, k: nat)
    requires Inv(s) && Feasible(s, run) && t in s.threads && Queued(s, t) && AheadOnTop(s, run, t, k) && NeverCurrent(s, run, t)
    ensures Ticks(run) < (if OnTop(s, t) then 0 else ToBoost(s)) + 20 + Quantum(0) * k
    decreases |run|
  {
    if OnTop(s, t) {
      TopWait(s, run, t);
      RankBound(s, t, k);
    } else if run == [] {
      ToBoostTick(s.clock, s);
    } else {
      QueuedStep(s, run[0], t);
      ToBoostPositive(s);
      StarvedRunIsShort(Next(s, run[0]), run[1..], t, k);
    }
  }

  /** Bounded waiting.  From any state that keeps the invariant, in every run in which a queued thread has at most
      `k` threads ahead of it when it first is on the top level, it is on the CPU in some state of the run once the
      run has 100 + 20 + 5 * k ticks (20 + 5 * k if it is on the top level already), whatever other steps interleave. */
  lemma BoundedWaiting(s: Sched, run: seq<Step>, t: Tid, k: nat)
    requires Inv(s) && Feasible(s, run) && t in s.threads && Queued(s, t) && AheadOnTop(s, run, t, k)
    requires Ticks(run) >= (if OnTop(s, t) then 0 else BOOST_INTERVAL) + 20 + Quantum(0) * k
    ensures exists i :: 0 <= i <= |run| && Feasible(s, run[..i]) && After(s, run[..i]).current == t
  {
    if NeverCurrent(s, run, t) {
      StarvedRunIsShort(s, run, t, k);
      ToBoostTick(s.clock, s);
      assert false;
    } else {
      var i := FirstCurrent(s, run, t);
    }
  }

  // ---- Counting the threads ahead -------------------------------------------------------------------

  ghost function Members(q: seq<Tid>): set<Tid> { set t | t in q }

  lemma {:induction false} DistinctLength(q: seq<Tid>)
    requires forall t :: Count(q, t) <= 1
    ensures |Members(q)| == |q|
  {
    if q != [] {
      forall t ensures Count(q[1..], t) <= 1 { assert Count(q, t) <= 1; }
      DistinctLength(q[1..]);
      assert Count(q, q[0]) <= 1;
      CountIn(q[1..], q[0]);
      assert Members(q) == {q[0]} + Members(q[1..]);
    }
  }

  lemma SubsetSize(a: set<Tid>, b: set<Tid>)
    requires a <= b
    ensures |a| <= |b|
    decreases |a|
  {
    if a != {} {
      var x :| x in a;
      SubsetSize(a - {x}, b - {x});
    }
  }

  /** The threads ahead of `t` are allocated, distinct, and neither idle nor `t`. */
  lemma AheadBound(s: Sched, t: Tid)
    requires Inv(s) && OnTop(s, t)
    ensures Ahead(s.queues[0], t) + 2 <= |s.threads|
  {
    var q := s.queues[0];
    forall u ensures Count(q, u) <= 1 && (u in q ==> Worker(s, u)) {
      assert Coherent(s, u);
      CountIn(q, u);
    }
    DistinctLength(q);
    SubsetSize(Members(q), s.threads.Keys - {s.idle});
  }

  /** Every state of the run has at most `n` threads besides the idle thread and one more. */
  ghost predicate AtMost(s: Sched, run: seq<Step>, n: nat)
    requires Feasible(s, run)
    decreases |run|
  {
    |s.threads| <= n + 2 && (run != [] ==> AtMost(Next(s, run[0]), run[1..], n))
  }

  /** Only existing threads are ever ahead. */
  lemma {:induction false} FewThreadsAhead(s: Sched, run: seq<Step>, t: Tid, n: nat)
    requires Inv(s) && Feasible(s, run) && AtMost(s, run, n)
    ensures AheadOnTop(s, run, t, n)
    decreases |run|
  {
    if OnTop(s, t) {
      AheadBound(s, t);
    } else if run != [] {
      StepKeeps(s, run[0]);
      FewThreadsAhead(Next(s, run[0]), run[1..], t, n);
    }
  }
}
