/** The scheduler's state as a value, one function per scheduler entry point, and the
    invariants every entry point keeps.  Class `Scheduler.Scheduler` is proved to compute these
    functions; module `MlfqRuns` proves what they imply for whole runs. */
module MlfqModel {

  type Tid = nat
  type Addr = nat

  const NUM_LEVELS: nat := 3
  const BOOST_INTERVAL: nat := 100
  const U64: nat := 0x1_0000_0000_0000_0000
  const NULL: Addr := 0

  /** The 64-bit tick counter after one more tick. */
  function NextClock(clock: nat): nat {
    if clock + 1 >= U64 then 0 else clock + 1
  }

  function Quantum(level: nat): nat
    requires level < NUM_LEVELS
  {
    if level == 0 then 5 else if level == 1 then 10 else 20
  }

  datatype ThreadState = Ready | Running | Blocked | Terminated | Zombie

  datatype Tcb = Tcb(state: ThreadState, level: nat, ticks: int, channel: Addr)

  /** A thread record as the constructor leaves it. */
  const FRESH: Tcb := Tcb(Ready, 0, 5, NULL)

  /** `dead` is the reaper's shared list, `dying` the private list it drains. */
  datatype Sched = Sched(
    threads: map<Tid, Tcb>,
    queues: seq<seq<Tid>>,
    waiting: seq<Tid>,
    dead: seq<Tid>,
    dying: seq<Tid>,
    current: Tid,
    idle: Tid,
    reaper: Tid,
    clock: nat)

  ghost predicate AllIn(q: seq<Tid>, threads: map<Tid, Tcb>) {
    forall i :: 0 <= i < |q| ==> q[i] in threads
  }

  ghost predicate LevelsOk(threads: map<Tid, Tcb>) {
    forall t :: t in threads ==> threads[t].level < NUM_LEVELS
  }

  /** What the entry points need in order to be defined: the lists link allocated threads. */
  ghost predicate Shape(s: Sched) {
    && |s.queues| == NUM_LEVELS
    && s.idle in s.threads && s.current in s.threads && s.reaper in s.threads
    && AllIn(s.queues[0], s.threads) && AllIn(s.queues[1], s.threads) && AllIn(s.queues[2], s.threads)
    && AllIn(s.waiting, s.threads)
    && LevelsOk(s.threads)
    && s.clock < U64
  }

  // ---- Entry points -----------------------------------------------------------------------

  /** The level PopBest takes from; NUM_LEVELS when every queue is empty. */
  function BestLevel(queues: seq<seq<Tid>>): (l: nat)
    requires |queues| == NUM_LEVELS
    ensures l <= NUM_LEVELS
    ensures l < NUM_LEVELS ==> queues[l] != []
    ensures forall k :: 0 <= k < l ==> queues[k] == []
  {
    if queues[0] != [] then 0 else if queues[1] != [] then 1 else if queues[2] != [] then 2 else 3
  }

  ghost function SwitchTo(s: Sched, next: Tid): Sched
    requires next in s.threads
  {
    if next == s.current then s
    else s.(current := next, threads := s.threads[next := s.threads[next].(state := Running)])
  }

  ghost function Pop(s: Sched, l: nat): Sched
    requires |s.queues| == NUM_LEVELS && l < NUM_LEVELS && s.queues[l] != []
  {
    s.(queues := s.queues[l := s.queues[l][1..]])
  }

  ghost function Schedule(s: Sched): Sched
    requires Shape(s)
  {
    var l := BestLevel(s.queues);
    if l == NUM_LEVELS then SwitchTo(s, s.idle) else SwitchTo(Pop(s, l), s.queues[l][0])
  }

  /** Make `t` ready with a full quantum at the back of queue `level`. */
  ghost function Enqueue(s: Sched, t: Tid, level: nat): Sched
    requires |s.queues| == NUM_LEVELS && level < NUM_LEVELS && t in s.threads
  {
    s.(threads := s.threads[t := s.threads[t].(state := Ready, level := level, ticks := Quantum(level))],
       queues := s.queues[level := s.queues[level] + [t]])
  }

  lemma EnqueueShape(s: Sched, t: Tid, level: nat)
    requires Shape(s) && level < NUM_LEVELS && t in s.threads
    ensures Shape(Enqueue(s, t, level))
  {}

  /** Requeueing resets the quantum, so what was left of it does not matter. */
  lemma EnqueueResets(s: Sched, t: Tid, level: nat, ticks: int)
    requires |s.queues| == NUM_LEVELS && level < NUM_LEVELS && t in s.threads
    ensures Enqueue(s.(threads := s.threads[t := s.threads[t].(ticks := ticks)]), t, level) == Enqueue(s, t, level)
  {
    assert Enqueue(s.(threads := s.threads[t := s.threads[t].(ticks := ticks)]), t, level).threads == Enqueue(s, t, level).threads;
  }

  ghost predicate BelowTop(s: Sched, t: Tid)
    requires |s.queues| == NUM_LEVELS
  {
    t in s.queues[1] || t in s.queues[2]
  }

  ghost function BoostedTcb(s: Sched, t: Tid): Tcb
    requires |s.queues| == NUM_LEVELS && t in s.threads
  {
    if BelowTop(s, t) then s.threads[t].(level := 0, ticks := Quantum(0)) else s.threads[t]
  }

  ghost function Boost(s: Sched): Sched
    requires |s.queues| == NUM_LEVELS
  {
    s.(threads := map t | t in s.threads :: BoostedTcb(s, t),
       queues := [s.queues[0] + s.queues[1] + s.queues[2], [], []])
  }

  /** One level of a boost: queue `i` moves, in order, to the back of the top queue. */
  ghost function Promote(s: Sched, i: nat): Sched
    requires |s.queues| == NUM_LEVELS && 0 < i < NUM_LEVELS
  {
    s.(threads := map t | t in s.threads ::
                    if t in s.queues[i] then s.threads[t].(level := 0, ticks := Quantum(0)) else s.threads[t],
       queues := s.queues[0 := s.queues[0] + s.queues[i]][i := []])
  }

  /** The kernel boosts level by level; together that is one move of everything below the top. */
  lemma BoostByLevel(s: Sched)
    requires |s.queues| == NUM_LEVELS
    ensures Promote(Promote(s, 1), 2) == Boost(s)
  {
    assert Promote(Promote(s, 1), 2).queues == Boost(s).queues;
    assert Promote(Promote(s, 1), 2).threads == Boost(s).threads;
  }

  /** One iteration of a boost: the head of queue `i` moves to the back of the top queue. */
  ghost function PromoteHead(s: Sched, i: nat): Sched
    requires |s.queues| == NUM_LEVELS && 0 < i < NUM_LEVELS && s.queues[i] != [] && s.queues[i][0] in s.threads
  {
    var t := s.queues[i][0];
    s.(threads := s.threads[t := s.threads[t].(level := 0, ticks := Quantum(0))],
       queues := s.queues[i := s.queues[i][1..]][0 := s.queues[0] + [t]])
  }

  lemma PromoteFromHead(s: Sched, i: nat)
    requires |s.queues| == NUM_LEVELS && 0 < i < NUM_LEVELS && s.queues[i] != [] && s.queues[i][0] in s.threads
    ensures Promote(PromoteHead(s, i), i) == Promote(s, i)
  {
    var h := PromoteHead(s, i);
    assert s.queues[i] == [s.queues[i][0]] + h.queues[i];
    assert Promote(h, i).queues[0] == Promote(s, i).queues[0];
    assert Promote(h, i).queues == Promote(s, i).queues;
    assert forall t :: t in s.queues[i] <==> t == s.queues[i][0] || t in h.queues[i];
    assert Promote(h, i).threads == Promote(s, i).threads;
  }

  lemma PromoteHeadShape(s: Sched, i: nat)
    requires Shape(s) && 0 < i < NUM_LEVELS && s.queues[i] != []
    ensures Shape(PromoteHead(s, i))
  {}

  lemma PromoteNothing(s: Sched, i: nat)
    requires |s.queues| == NUM_LEVELS && 0 < i < NUM_LEVELS && s.queues[i] == []
    ensures Promote(s, i) == s
  {
    assert s.queues[0] + s.queues[i] == s.queues[0];
    assert Promote(s, i).queues == s.queues;
    assert Promote(s, i).threads == s.threads;
  }

  ghost function AdvanceClock(s: Sched): Sched
    requires |s.queues| == NUM_LEVELS
  {
    var s1 := s.(clock := NextClock(s.clock));
    if s1.clock % BOOST_INTERVAL == 0 then Boost(s1) else s1
  }

  /** One level down, as far as the lowest. */
  function Demoted(level: nat): (lower: nat)
    ensures level < 2 ==> lower == level + 1
    ensures level >= 2 ==> lower == 2
  {
    if level + 1 >= NUM_LEVELS then NUM_LEVELS - 1 else level + 1
  }

  /** The part of Tick after the clock and the boost: charge the current thread. */
  ghost function Charge(s: Sched): Sched
    requires Shape(s)
  {
    var c := s.threads[s.current];
    if s.current != s.idle then
      if c.ticks - 1 <= 0 then
        Schedule(Enqueue(s, s.current, Demoted(c.level)))
      else s.(threads := s.threads[s.current := c.(ticks := c.ticks - 1)])
    else if BestLevel(s.queues) < NUM_LEVELS then Schedule(s) else s
  }

  lemma AdvanceClockShape(s: Sched)
    requires Shape(s)
    ensures Shape(AdvanceClock(s))
  {}

  ghost function Tick(s: Sched): Sched
    requires Shape(s)
  {
    AdvanceClockShape(s);
    Charge(AdvanceClock(s))
  }

  ghost function Yield(s: Sched): Sched
    requires Shape(s)
  {
    if s.current != s.idle && s.threads[s.current].state == Running
    then Schedule(Enqueue(s, s.current, s.threads[s.current].level))
    else Schedule(s)
  }

  ghost function Block(s: Sched, channel: Addr): Sched
    requires Shape(s)
  {
    Schedule(s.(threads := s.threads[s.current := s.threads[s.current].(state := Blocked, channel := channel)],
                waiting := s.waiting + [s.current]))
  }

  ghost function Remove(q: seq<Tid>, i: nat): seq<Tid>
    requires i < |q|
  {
    q[..i] + q[i + 1..]
  }

  /** Take the i-th waiting thread off the wait list and make it ready at its own level. */
  ghost function WakeAt(s: Sched, i: nat): Sched
    requires Shape(s) && i < |s.waiting|
    ensures Shape(WakeAt(s, i))
  {
    var t := s.waiting[i];
    var woken := s.(waiting := Remove(s.waiting, i), threads := s.threads[t := s.threads[t].(channel := NULL)]);
    Enqueue(woken, t, s.threads[t].level)
  }

  ghost function WakeFrom(s: Sched, channel: Addr, all: bool, i: nat): (r: Sched)
    requires Shape(s) && i <= |s.waiting|
    ensures Shape(r)
    decreases |s.waiting| - i
  {
    if i == |s.waiting| then s
    else if s.threads[s.waiting[i]].channel != channel then WakeFrom(s, channel, all, i + 1)
    else if all then WakeFrom(WakeAt(s, i), channel, all, i)
    else WakeAt(s, i)
  }

  ghost function Wake(s: Sched, channel: Addr, all: bool): Sched
    requires Shape(s)
  {
    WakeFrom(s, channel, all, 0)
  }

  ghost function AddThread(s: Sched, t: Tid, level: nat): Sched
    requires Shape(s) && level < NUM_LEVELS
  {
    Enqueue(s.(threads := s.threads[t := FRESH]), t, level)
  }

  /** The tail of exit: mark the thread terminated, hand it to the reaper, yield. */
  ghost function Terminate(s: Sched): Sched
    requires Shape(s)
  {
    Yield(s.(threads := s.threads[s.current := s.threads[s.current].(state := Terminated)],
             dead := s.dead + [s.current]))
  }

  /** The reaper takes the whole dead list over. */
  ghost function Collect(s: Sched): Sched {
    s.(dying := s.dying + s.dead, dead := [])
  }

  /** The reaper frees the first thread of its private list. */
  ghost function Free(s: Sched): Sched
    requires s.dying != []
  {
    s.(threads := s.threads - {s.dying[0]}, dying := s.dying[1..])
  }

  // ---- Steps --------------------------------------------------------------------------------

  datatype Step =
    | TickStep
    | YieldStep
    | BlockStep(channel: Addr)
    | WakeStep(channel: Addr, all: bool)
    | AddStep(t: Tid, level: nat)
    | ExitStep
    | CollectStep
    | FreeStep

  /** When the kernel can issue a step: the idle thread never blocks or exits, the reaper never
      exits and is the only one to drain dead threads, and a new thread is a new allocation. */
  ghost predicate Enabled(s: Sched, e: Step) {
    match e
    case TickStep => true
    case YieldStep => true
    case BlockStep(_) => s.current != s.idle
    case WakeStep(_, _) => true
    case AddStep(t, level) => t !in s.threads && level < NUM_LEVELS
    case ExitStep => s.current != s.idle && s.current != s.reaper
    case CollectStep => s.current == s.reaper
    case FreeStep => s.current == s.reaper && s.dying != []
  }

  ghost function Next(s: Sched, e: Step): Sched
    requires Shape(s) && Enabled(s, e)
  {
    match e
    case TickStep => Tick(s)
    case YieldStep => Yield(s)
    case BlockStep(channel) => Block(s, channel)
    case WakeStep(channel, all) => Wake(s, channel, all)
    case AddStep(t, level) => AddThread(s, t, level)
    case ExitStep => Terminate(s)
    case CollectStep => Collect(s)
    case FreeStep => Free(s)
  }

  /** The state Scheduler::Start leaves: idle running, the reaper ready at the lowest level. */
  ghost function Boot(idle: Tid, reaper: Tid): Sched
    requires idle != reaper
  {
    Sched(map[idle := Tcb(Running, 2, 5, NULL), reaper := Tcb(Ready, 2, Quantum(2), NULL)],
          [[], [], [reaper]], [], [], [], idle, idle, reaper, 0)
  }

  // ---- Where threads are ----------------------------------------------------------------------

  ghost function Count(q: seq<Tid>, t: Tid): nat {
    if q == [] then 0 else (if q[0] == t then 1 else 0) + Count(q[1..], t)
  }

  ghost function QueueCount(queues: seq<seq<Tid>>, t: Tid): nat
    requires |queues| == NUM_LEVELS
  {
    Count(queues[0], t) + Count(queues[1], t) + Count(queues[2], t)
  }

  /** How many list nodes of the scheduler and the reaper `t` is linked into. */
  ghost function Links(s: Sched, t: Tid): nat
    requires |s.queues| == NUM_LEVELS
  {
    QueueCount(s.queues, t) + Count(s.waiting, t) + Count(s.dead, t) + Count(s.dying, t)
  }

  /** How many places `t` occupies: list nodes plus the CPU. */
  ghost function Places(s: Sched, t: Tid): nat
    requires |s.queues| == NUM_LEVELS
  {
    Links(s, t) + if s.current == t then 1 else 0
  }

  ghost predicate Worker(s: Sched, t: Tid) { t in s.threads && t != s.idle }

  /** Conservation: every allocated non-idle thread is in exactly one place. */
  ghost predicate Conserved(s: Sched)
    requires |s.queues| == NUM_LEVELS
  {
    forall t :: Worker(s, t) ==> Places(s, t) == 1
  }

  /** The lists a worker is linked into agree with its record:
      - on run queue l it is Ready, has level l and a full quantum;
      - it is Blocked iff on the wait list and Terminated iff on one of the reaper's lists;
      - its remaining ticks are between 1 and its level's quantum. */
  ghost predicate Agrees(s: Sched, t: Tid)
    requires |s.queues| == NUM_LEVELS && t in s.threads
  {
    var c := s.threads[t];
    && c.level < NUM_LEVELS
    && (QueueCount(s.queues, t) > 0 ==>
          c.state == Ready && Count(s.queues[c.level], t) > 0 && c.ticks == Quantum(c.level))
    && (c.state == Blocked <==> Count(s.waiting, t) > 0)
    && (c.state == Terminated <==> Count(s.dead, t) + Count(s.dying, t) > 0)
    && c.state != Zombie
    && 1 <= c.ticks <= Quantum(c.level)
  }

  /** Single residence: a worker is in at most one place, agrees with its record there, and is
      Running only on the CPU; what is not an allocated worker is on no list. */
  ghost predicate Coherent(s: Sched, t: Tid)
    requires |s.queues| == NUM_LEVELS
  {
    if Worker(s, t) then
      Agrees(s, t) && Places(s, t) <= 1 && (s.threads[t].state == Running ==> s.current == t)
    else
      Links(s, t) == 0
  }

  ghost predicate Inv(s: Sched) {
    && |s.queues| == NUM_LEVELS
    && s.idle in s.threads && s.current in s.threads && s.reaper in s.threads
    && s.idle != s.reaper
    && s.threads[s.idle].state == Running && s.threads[s.idle].level < NUM_LEVELS
    && s.threads[s.reaper].state != Terminated
    && (s.current != s.idle ==> s.threads[s.current].state in {Running, Ready})
    && s.clock < U64
    && forall t :: Coherent(s, t)
  }

  // ---- Counting -------------------------------------------------------------------------------

  lemma {:induction false} CountAppend(a: seq<Tid>, b: seq<Tid>, t: Tid)
    ensures Count(a + b, t) == Count(a, t) + Count(b, t)
  {
    if a == [] {
      assert a + b == b;
    } else {
      assert (a + b)[1..] == a[1..] + b;
      CountAppend(a[1..], b, t);
    }
  }

  lemma {:induction false} CountIn(q: seq<Tid>, t: Tid)
    ensures Count(q, t) > 0 <==> t in q
  {
    if q != [] {
      CountIn(q[1..], t);
      assert t in q <==> t == q[0] || t in q[1..];
    }
  }

  lemma CountRemove(q: seq<Tid>, i: nat, t: Tid)
    requires i < |q|
    ensures Count(q, t) == Count(Remove(q, i), t) + if q[i] == t then 1 else 0
  {
    assert q == q[..i] + q[i..];
    CountAppend(q[..i], q[i..], t);
    CountAppend(q[..i], q[i + 1..], t);
    assert q[i..][1..] == q[i + 1..];
  }

  lemma CountPush(q: seq<Tid>, x: Tid, t: Tid)
    ensures Count(q + [x], t) == Count(q, t) + if x == t then 1 else 0
  {
    CountAppend(q, [x], t);
  }

  lemma AllInIfCounted(q: seq<Tid>, threads: map<Tid, Tcb>)
    requires forall t :: Count(q, t) > 0 ==> t in threads
    ensures AllIn(q, threads)
  {
    forall i | 0 <= i < |q| ensures q[i] in threads { CountIn(q, q[i]); }
  }

  /** The invariant provides what the entry points need. */
  lemma InvShape(s: Sched)
    requires Inv(s)
    ensures Shape(s)
  {
    forall t | t in s.threads ensures s.threads[t].level < NUM_LEVELS { assert Coherent(s, t); }
    forall t ensures Links(s, t) > 0 ==> t in s.threads { assert Coherent(s, t); }
    AllInIfCounted(s.queues[0], s.threads);
    AllInIfCounted(s.queues[1], s.threads);
    AllInIfCounted(s.queues[2], s.threads);
    AllInIfCounted(s.waiting, s.threads);
  }
}
