/** What each entry point of the scheduler leaves, in terms of the thread records and lists before it: whose
    turn it is, who is charged, demoted, put to sleep or woken, and with how many ticks. */
module MlfqEffects {
  import opened MlfqModel
  import opened MlfqInvariants
  import MlfqStatus
  import R = MlfqRuns

  /** Queued threads in the order in which they get the CPU. */
  ghost function Line(queues: seq<seq<Tid>>): seq<Tid>
    requires |queues| == 3
  {
    queues[0] + queues[1] + queues[2]
  }

  /** The ticks a thread has when it is put on a level. */
  predicate FullAt(level: nat, ticks: int) { (level == 0 && ticks == 5) || (level == 1 && ticks == 10) || (level == 2 && ticks == 20) }

  lemma FullQuantum(level: nat)
    requires level < 3
    ensures FullAt(level, Quantum(level))
  {}

  // ---- Whose turn it is -----------------------------------------------------------------------------

  /** `r` is what picking the first thread of the line leaves of `s`: it leaves its queue and runs, and
      nothing else happens; with nobody in line the idle thread runs. */
  ghost predicate Picks(s: Sched, r: Sched)
    requires |s.queues| == 3
  {
    var line := Line(s.queues);
    && |r.queues| == 3 && Line(r.queues) == (if line == [] then [] else line[1..])
    && (forall l :: 0 <= l < 3 ==> r.queues[l] == s.queues[l] || (line != [] && s.queues[l] == [line[0]] + r.queues[l]))
    && r.current == (if line == [] then s.idle else line[0])
    && r.current in s.threads
    && r.threads == (if r.current == s.current then s.threads else s.threads[r.current := s.threads[r.current].(state := Running)])
    && r.waiting == s.waiting && r.dead == s.dead && r.dying == s.dying && r.clock == s.clock && r.idle == s.idle && r.reaper == s.reaper
  }

  lemma LineHead(queues: seq<seq<Tid>>)
    requires |queues| == 3 && BestLevel(queues) < 3
    ensures var l := BestLevel(queues);
      && queues[l] != [] && Line(queues) != [] && Line(queues)[0] == queues[l][0]
      && Line(queues)[1..] == Line(queues[l := queues[l][1..]]) && queues[l] == [queues[l][0]] + queues[l][1..]
  {
    var l := BestLevel(queues);
    var q := queues[l := queues[l][1..]];
    if l == 0 {
      assert Line(queues)[1..] == queues[0][1..] + queues[1] + queues[2];
    } else if l == 1 {
      assert queues[0] == [] && Line(queues) == queues[1] + queues[2];
      assert Line(q) == queues[1][1..] + queues[2];
    } else {
      assert queues[0] == [] && queues[1] == [] && Line(queues) == queues[2];
      assert Line(q) == queues[2][1..];
    }
  }

  lemma SchedulePicks(s: Sched)
    requires Shape(s)
    ensures Picks(s, Schedule(s))
  {
    var l := BestLevel(s.queues);
    if l < 3 { LineHead(s.queues); } else { assert Line(s.queues) == []; }
  }

  // ---- Tick -----------------------------------------------------------------------------------------

  /** The 64-bit tick counter after the tick is a multiple of 100. */
  ghost predicate Boosting(s: Sched) { (s.clock + 1) % 0x1_0000_0000_0000_0000 % 100 == 0 }

  ghost predicate Lifted(s: Sched, t: Tid)
    requires |s.queues| == 3
  {
    Boosting(s) && (t in s.queues[1] || t in s.queues[2])
  }

  /** The state the tick goes on from: the counter has advanced, and when it is time for a boost all queued
      threads are on level 0 in their order, those from below with five ticks. */
  ghost predicate Begun(s: Sched, b: Sched)
    requires |s.queues| == 3
  {
    && b.clock == (s.clock + 1) % 0x1_0000_0000_0000_0000
    && b.queues == (if Boosting(s) then [Line(s.queues), [], []] else s.queues)
    && b.threads.Keys == s.threads.Keys
    && (forall t: Tid :: t in s.threads ==>
          b.threads[t] == if Lifted(s, t) then s.threads[t].(level := 0, ticks := 5) else s.threads[t])
    && b.current == s.current && b.idle == s.idle && b.reaper == s.reaper
    && b.waiting == s.waiting && b.dead == s.dead && b.dying == s.dying
  }

  lemma TickBegins(s: Sched)
    requires Inv(s)
    ensures |s.queues| == 3 && Begun(s, AdvanceClock(s))
    ensures Shape(AdvanceClock(s)) && s.current in s.threads
    ensures s.current != s.idle ==> s.current !in s.queues[1] && s.current !in s.queues[2]
  {
    InvShape(s);
    AdvanceClockShape(s);
    assert Coherent(s, s.current);
    CountIn(s.queues[1], s.current);
    CountIn(s.queues[2], s.current);
  }

  /** A tick that leaves the running thread some of its quantum takes one tick off it, and nobody else gets
      the CPU. */
  lemma TickCharges(s: Sched) returns (b: Sched)
    requires Inv(s) && s.current != s.idle && s.threads[s.current].ticks > 1
    ensures Shape(s) && Begun(s, b) && s.current in b.threads
    ensures Tick(s) == b.(threads := b.threads[s.current := s.threads[s.current].(ticks := s.threads[s.current].ticks - 1)])
  {
    InvShape(s);
    TickBegins(s);
    b := AdvanceClock(s);
  }

  /** The level below. */
  predicate Below(level: nat, lower: nat) { (level == 0 && lower == 1) || (level == 1 && lower == 2) || (level == 2 && lower == 2) }

  /** A tick that uses up the quantum demotes the running thread: it is Ready on the level below, last in line
      there, with that level's ticks, and then the first in line runs. */
  lemma TickDemotes(s: Sched) returns (b: Sched, l: nat, ticks: int)
    requires Inv(s) && s.current != s.idle && s.threads[s.current].ticks == 1
    ensures Shape(s) && Begun(s, b) && |b.queues| == 3 && Below(s.threads[s.current].level, l) && FullAt(l, ticks)
    ensures var t := s.current;
      Picks(b.(threads := b.threads[t := Tcb(Ready, l, ticks, s.threads[t].channel)], queues := b.queues[l := b.queues[l] + [t]]), Tick(s))
  {
    InvShape(s);
    TickBegins(s);
    b := AdvanceClock(s);
    var t := s.current;
    assert Coherent(s, t);
    l := Demoted(s.threads[t].level);
    ticks := Quantum(l);
    FullQuantum(l);
    EnqueueShape(b, t, l);
    SchedulePicks(Enqueue(b, t, l));
  }

  /** Putting a thread last on a level puts it first in line exactly if nobody is on that level or above. */
  lemma LastInLine(queues: seq<seq<Tid>>, l: nat, t: Tid)
    requires |queues| == 3 && l < 3 && forall k :: 0 <= k < 3 ==> t !in queues[k]
    ensures var d := queues[l := queues[l] + [t]];
      Line(d) != [] && (Line(d)[0] == t <==> forall k :: 0 <= k <= l ==> queues[k] == [])
  {
    var d := queues[l := queues[l] + [t]];
    assert Line(d) != [] by { assert Line(d)[|queues[0]| + (if l > 0 then |queues[1]| else 0) + (if l > 1 then |queues[2]| else 0)] == t; }
    if queues[0] != [] {
      assert Line(d)[0] == queues[0][0];
    } else if l > 0 && queues[1] != [] {
      assert Line(d)[0] == queues[1][0];
    } else if l > 1 && queues[2] != [] {
      assert Line(d)[0] == queues[2][0];
    }
  }

  lemma OffQueues(s: Sched)
    requires Inv(s)
    ensures forall k :: 0 <= k < 3 ==> s.current !in s.queues[k]
  {
    assert Coherent(s, s.current);
    forall k | 0 <= k < 3 ensures s.current !in s.queues[k] { CountIn(s.queues[k], s.current); }
  }

  /** On a tick without a boost: a thread that has used up its quantum is on level 1 after level 0 and on level
      2 otherwise, with ten or twenty ticks; it is last there, or goes on if nobody else is on that level or above. */
  lemma DemotedThread(s: Sched) returns (n: Sched)
    requires Inv(s) && s.current != s.idle && s.threads[s.current].ticks == 1 && !Boosting(s)
    ensures Shape(s) && n == Tick(s) && |n.queues| == 3 && s.current in n.threads
    ensures var t, l := s.current, if s.threads[s.current].level == 0 then 1 else 2;
      && n.threads[t] == Tcb(Ready, l, if l == 1 then 10 else 20, s.threads[t].channel)
      && (n.current == t <==> forall k :: 0 <= k <= l ==> s.queues[k] == [])
      && (n.current != t ==> n.queues[l] != [] && n.queues[l][|n.queues[l]| - 1] == t)
  {
    var b, l, ticks := TickDemotes(s);
    n := Tick(s);
    var t := s.current;
    OffQueues(s);
    LastInLine(s.queues, l, t);
    var q := s.queues[l] + [t];
    if n.current != t && n.queues[l] != q { assert q == [n.current] + n.queues[l]; }
  }

  /** While the idle thread runs, a tick gives the CPU to the first in line, if there is anybody. */
  lemma TickFromIdle(s: Sched) returns (b: Sched)
    requires Inv(s) && s.current == s.idle
    ensures Shape(s) && Begun(s, b) && |b.queues| == 3
    ensures if Line(b.queues) == [] then Tick(s) == b else Picks(b, Tick(s))
  {
    InvShape(s);
    TickBegins(s);
    b := AdvanceClock(s);
    SchedulePicks(b);
    if BestLevel(b.queues) < 3 { LineHead(b.queues); } else { assert Line(b.queues) == []; }
  }

  /** The 64-bit tick counter after `n` more ticks. */
  function ClockAfter(clock: nat, n: nat): nat { (clock + n) % 0x1_0000_0000_0000_0000 }

  lemma ClockSteps(clock: nat, n: nat)
    ensures ClockAfter(ClockAfter(clock, 1), n) == ClockAfter(clock, n + 1)
  {}

  /** None of the next `n` ticks boosts. */
  ghost predicate NoBoost(s: Sched, n: int) { forall j: nat :: 0 < j <= n ==> ClockAfter(s.clock, j) % 100 != 0 }

  lemma NoBoostNext(s: Sched, r: Sched, n: int)
    requires n > 1 && NoBoost(s, n) && r.clock == ClockAfter(s.clock, 1)
    ensures NoBoost(r, n - 1)
  {
    forall j: nat | 0 < j <= n - 1 ensures ClockAfter(r.clock, j) % 100 != 0 { ClockSteps(s.clock, j); }
  }

  /** Over a run: as many ticks as the running thread has left, none of them a boost, take it one level down,
      with ten ticks on level 1 and twenty on level 2. */
  lemma {:induction false} QuantumRunsOut(s: Sched, run: seq<Step>)
    requires Inv(s) && s.current != s.idle && |run| == s.threads[s.current].ticks && NoBoost(s, |run|)
    requires forall j :: 0 <= j < |run| ==> run[j] == TickStep
    ensures R.Feasible(s, run) && s.current in R.After(s, run).threads
    ensures var c := s.threads[s.current]; var l := if c.level == 0 then 1 else 2;
      R.After(s, run).threads[s.current] == Tcb(Ready, l, if l == 1 then 10 else 20, c.channel)
    decreases |run|
  {
    assert Coherent(s, s.current);
    TickKeeps(s);
    if |run| == 1 {
      assert ClockAfter(s.clock, 1) % 100 != 0;
      var n := DemotedThread(s);
      assert run[1..] == [] && R.Feasible(n, []) && R.After(n, []) == n;
    } else {
      var b := TickCharges(s);
      NoBoostNext(s, Tick(s), |run|);
      QuantumRunsOut(Tick(s), run[1..]);
    }
  }

  // ---- Yield, Block and exit --------------------------------------------------------------------------

  /** A Running thread that yields goes last in line on its own level, with that level's ticks; from any other
      state a Yield files nothing.  Then the first in line runs. */
  lemma YieldEffect(s: Sched) returns (ticks: int)
    requires Inv(s)
    ensures Shape(s) && |s.queues| == 3
    ensures var t, c := s.current, s.threads[s.current];
      if t != s.idle && c.state == Running then
        c.level < 3 && FullAt(c.level, ticks) &&
        Picks(s.(threads := s.threads[t := Tcb(Ready, c.level, ticks, c.channel)], queues := s.queues[c.level := s.queues[c.level] + [t]]), Yield(s))
      else Picks(s, Yield(s))
  {
    InvShape(s);
    var t, c := s.current, s.threads[s.current];
    if t != s.idle && c.state == Running {
      ticks := Quantum(c.level);
      FullQuantum(c.level);
      EnqueueShape(s, t, c.level);
      SchedulePicks(Enqueue(s, t, c.level));
    } else {
      ticks := 0;
      SchedulePicks(s);
    }
  }

  /** A thread that blocks keeps its level and its ticks and goes last on the wait list. */
  lemma BlockEffect(s: Sched, channel: Addr)
    requires Inv(s) && s.current != s.idle
    ensures Shape(s) && |s.queues| == 3
    ensures var t, c := s.current, s.threads[s.current];
      Picks(s.(threads := s.threads[t := Tcb(Blocked, c.level, c.ticks, channel)], waiting := s.waiting + [t]), Block(s, channel))
  {
    InvShape(s);
    var t, c := s.current, s.threads[s.current];
    SchedulePicks(s.(threads := s.threads[t := c.(state := Blocked, channel := channel)], waiting := s.waiting + [t]));
  }

  lemma TerminateEffect(s: Sched)
    requires Inv(s) && s.current != s.idle
    ensures Shape(s) && |s.queues| == 3
    ensures var t, c := s.current, s.threads[s.current];
      Picks(s.(threads := s.threads[t := Tcb(Terminated, c.level, c.ticks, c.channel)], dead := s.dead + [t]), Terminate(s))
  {
    InvShape(s);
    var t, c := s.current, s.threads[s.current];
    SchedulePicks(s.(threads := s.threads[t := c.(state := Terminated)], dead := s.dead + [t]));
  }

  /** A new thread is last in line on its level, Ready, with that level's ticks. */
  lemma AddEffect(s: Sched, t: Tid, level: nat) returns (ticks: int)
    requires Inv(s) && t !in s.threads && level < 3
    ensures Shape(s) && |s.queues| == 3 && FullAt(level, ticks)
    ensures AddThread(s, t, level) ==
      s.(threads := s.threads[t := Tcb(Ready, level, ticks, NULL)], queues := s.queues[level := s.queues[level] + [t]])
  {
    InvShape(s);
    ticks := Quantum(level);
    FullQuantum(level);
    assert AddThread(s, t, level).threads == s.threads[t := Tcb(Ready, level, ticks, NULL)];
  }

  // ---- Wake -------------------------------------------------------------------------------------------

  /** A woken thread is Ready on the level it blocked on, with that level's ticks. */
  ghost predicate Woken(before: Tcb, after: Tcb) {
    after.state == Ready && after.level == before.level && FullAt(after.level, after.ticks) && after.channel == NULL
  }

  lemma WakeAtEffect(s: Sched, i: nat)
    requires Inv(s) && Shape(s) && i < |s.waiting|
    ensures var t, r := s.waiting[i], WakeAt(s, i);
      var l := s.threads[t].level;
      && t in r.threads && Woken(s.threads[t], r.threads[t]) && l < 3
      && r == s.(waiting := s.waiting[..i] + s.waiting[i + 1..], threads := s.threads[t := r.threads[t]], queues := s.queues[l := s.queues[l] + [t]])
  {
    var t := s.waiting[i];
    CountIn(s.waiting, t);
    assert Coherent(s, t);
    FullQuantum(s.threads[t].level);
    assert WakeAt(s, i).threads == s.threads[t := WakeAt(s, i).threads[t]];
  }

  /** Waking one: the first sleeper on the channel leaves the wait list and goes last in line on its level. */
  lemma WakeOneEffect(s: Sched, channel: Addr, j: nat)
    requires Inv(s) && MlfqStatus.FirstWaiter(s, channel, j)
    ensures Shape(s)
    ensures var t, r := s.waiting[j], Wake(s, channel, false);
      var l := s.threads[t].level;
      && t in r.threads && Woken(s.threads[t], r.threads[t]) && l < 3
      && r == s.(waiting := s.waiting[..j] + s.waiting[j + 1..], threads := s.threads[t := r.threads[t]], queues := s.queues[l := s.queues[l] + [t]])
  {
    InvShape(s);
    var i := MlfqStatus.WakeFirst(s, channel, 0);
    assert i == j;
    WakeAtEffect(s, j);
  }

  ghost predicate SleepsOn(s: Sched, t: Tid, channel: Addr) { t in s.threads && s.threads[t].channel == channel }

  /** The threads of a list that sleep on the channel and are on the level, in order. */
  ghost function Sleepers(s: Sched, q: seq<Tid>, channel: Addr, level: nat): seq<Tid> {
    if q == [] then []
    else if SleepsOn(s, q[0], channel) && s.threads[q[0]].level == level then [q[0]] + Sleepers(s, q[1..], channel, level)
    else Sleepers(s, q[1..], channel, level)
  }

  /** Those that sleep on other channels. */
  ghost function Others(s: Sched, q: seq<Tid>, channel: Addr): seq<Tid> {
    if q == [] then [] else if SleepsOn(s, q[0], channel) then Others(s, q[1..], channel) else [q[0]] + Others(s, q[1..], channel)
  }

  lemma {:induction false} SameSleepers(s: Sched, r: Sched, q: seq<Tid>, channel: Addr, level: nat)
    requires forall t :: t in q ==> t in s.threads && t in r.threads && r.threads[t] == s.threads[t]
    ensures Sleepers(r, q, channel, level) == Sleepers(s, q, channel, level) && Others(r, q, channel) == Others(s, q, channel)
  {
    if q != [] { SameSleepers(s, r, q[1..], channel, level); }
  }

  /** What waking all from place `i` of the wait list on leaves. */
  ghost predicate AllWoken(s: Sched, r: Sched, channel: Addr, i: nat)
    requires |s.queues| == 3 && i <= |s.waiting|
  {
    var q := s.waiting[i..];
    && |r.queues| == 3 && (forall l :: 0 <= l < 3 ==> r.queues[l] == s.queues[l] + Sleepers(s, q, channel, l))
    && r.waiting == s.waiting[..i] + Others(s, q, channel)
    && r.threads.Keys == s.threads.Keys
    && (forall t: Tid :: t in s.threads && !(t in q && SleepsOn(s, t, channel)) ==> r.threads[t] == s.threads[t])
    && (forall t: Tid :: t in q && SleepsOn(s, t, channel) ==> Woken(s.threads[t], r.threads[t]))
    && r.current == s.current && r.idle == s.idle && r.reaper == s.reaper && r.dead == s.dead && r.dying == s.dying && r.clock == s.clock
  }

  lemma {:induction false} WakeFromEffect(s: Sched, channel: Addr, i: nat)
    requires Inv(s) && Shape(s) && i <= |s.waiting|
    ensures AllWoken(s, WakeFrom(s, channel, true, i), channel, i)
    decreases |s.waiting| - i
  {
    if i == |s.waiting| {
      assert s.waiting[i..] == [] && s.waiting[..i] == s.waiting;
    } else {
      var t, q := s.waiting[i], s.waiting[i..];
      assert q[0] == t && q[1..] == s.waiting[i + 1..];
      if !SleepsOn(s, t, channel) {
        WakeFromEffect(s, channel, i + 1);
        OnePast(s, WakeFrom(s, channel, true, i + 1), channel, i);
      } else {
        WakeAtKeeps(s, i);
        WakeFromEffect(WakeAt(s, i), channel, i);
        OneWoken(s, WakeFrom(s, channel, true, i), channel, i);
      }
    }
  }

  lemma OnePast(s: Sched, r: Sched, channel: Addr, i: nat)
    requires Shape(s) && i < |s.waiting| && !SleepsOn(s, s.waiting[i], channel) && AllWoken(s, r, channel, i + 1)
    ensures AllWoken(s, r, channel, i)
  {
    var q := s.waiting[i..];
    assert q[1..] == s.waiting[i + 1..] && q == [q[0]] + q[1..];
    assert s.waiting[..i + 1] + Others(s, q[1..], channel) == s.waiting[..i] + ([q[0]] + Others(s, q[1..], channel));
  }

  lemma OnceOnList(s: Sched, i: nat)
    requires Inv(s) && Shape(s) && i < |s.waiting|
    ensures s.waiting[i] !in s.waiting[i + 1..]
  {
    var t := s.waiting[i];
    assert s.waiting == s.waiting[..i] + [t] + s.waiting[i + 1..];
    CountAppend(s.waiting[..i] + [t], s.waiting[i + 1..], t);
    CountAppend(s.waiting[..i], [t], t);
    assert Coherent(s, t);
    CountIn(s.waiting[i + 1..], t);
  }

  lemma OneWoken(s: Sched, r: Sched, channel: Addr, i: nat)
    requires Inv(s) && Shape(s) && i < |s.waiting| && SleepsOn(s, s.waiting[i], channel) && AllWoken(WakeAt(s, i), r, channel, i)
    ensures AllWoken(s, r, channel, i)
  {
    var t, w, q := s.waiting[i], WakeAt(s, i), s.waiting[i..];
    WakeAtEffect(s, i);
    OnceOnList(s, i);
    assert q[0] == t && q[1..] == s.waiting[i + 1..] && q == [t] + q[1..];
    assert w.waiting[i..] == q[1..] && w.waiting[..i] == s.waiting[..i];
    forall l | 0 <= l < 3 ensures r.queues[l] == s.queues[l] + Sleepers(s, q, channel, l) {
      SameSleepers(s, w, q[1..], channel, l);
    }
    SameSleepers(s, w, q[1..], channel, 0);
  }

  /** Waking all: all sleepers on the channel leave the wait list, in order, each to the end of its own level. */
  lemma WakeAllEffect(s: Sched, channel: Addr)
    requires Inv(s)
    ensures Shape(s) && AllWoken(s, Wake(s, channel, true), channel, 0)
  {
    InvShape(s);
    WakeFromEffect(s, channel, 0);
  }
}
