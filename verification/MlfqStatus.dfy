/** The scheduler as the process code sees it: whether a thread sleeps, and on what.  Every entry
    point is characterised by what it does to the status of each thread. */
module MlfqStatus {
  import opened MlfqModel
  import opened MlfqInvariants

  datatype Status = Active | Sleeping(channel: Addr) | Gone

  function StatusOf(c: Tcb): Status {
    if c.state == Blocked then Sleeping(c.channel) else if c.state == Terminated then Gone else Active
  }

  ghost function StatusIn(s: Sched, t: Tid): Status
    requires t in s.threads
  {
    StatusOf(s.threads[t])
  }

  /** `r` differs from `s` at most in who runs, in queue order and in clock and quantum bookkeeping. */
  ghost predicate SameStatus(r: Sched, s: Sched) {
    && r.threads.Keys == s.threads.Keys && r.idle == s.idle && r.reaper == s.reaper
    && forall t :: t in s.threads ==> StatusIn(r, t) == StatusIn(s, t)
  }

  /** As SameStatus, except that thread `x` ends with status `st`. */
  ghost predicate OneStatus(r: Sched, s: Sched, x: Tid, st: Status) {
    && r.threads.Keys == s.threads.Keys && r.idle == s.idle && r.reaper == s.reaper
    && x in s.threads && StatusIn(r, x) == st
    && forall t :: t in s.threads && t != x ==> StatusIn(r, t) == StatusIn(s, t)
  }

  lemma ScheduleStatus(s: Sched)
    requires ReadyToSwitch(s) && Shape(s)
    ensures SameStatus(Schedule(s), s)
  {
    var l := BestLevel(s.queues);
    if l < NUM_LEVELS {
      var next := s.queues[l][0];
      assert Filed(s, next);
      PopCount(s.queues, l, next);
    }
  }

  lemma EnqueueActive(s: Sched, level: nat)
    requires Inv(s) && s.current != s.idle && level < NUM_LEVELS
    ensures var r := Enqueue(s, s.current, level); ReadyToSwitch(r) && Shape(r) && SameStatus(Schedule(r), s)
  {
    EnqueueCurrent(s, level);
    var r := Enqueue(s, s.current, level);
    ReadyShape(r);
    ScheduleStatus(r);
    assert SameStatus(r, s);
  }

  lemma TickStatus(s: Sched)
    requires Inv(s)
    ensures Shape(s) && SameStatus(Tick(s), s)
  {
    InvShape(s);
    AdvanceClockKeeps(s);
    AdvanceClockShape(s);
    var a := AdvanceClock(s);
    assert SameStatus(a, s);
    var c := a.threads[a.current];
    if a.current != a.idle {
      if c.ticks - 1 <= 0 {
        assert Coherent(a, a.current);
        EnqueueActive(a, Demoted(c.level));
      }
    } else if BestLevel(a.queues) < NUM_LEVELS {
      forall t ensures Filed(a, t) { assert Coherent(a, t); }
      ScheduleStatus(a);
    }
  }

  lemma YieldStatus(s: Sched)
    requires Inv(s)
    ensures Shape(s) && SameStatus(Yield(s), s)
  {
    InvShape(s);
    if s.current != s.idle && s.threads[s.current].state == Running {
      EnqueueActive(s, s.threads[s.current].level);
    } else {
      forall t ensures Filed(s, t) { assert Coherent(s, t); }
      ScheduleStatus(s);
    }
  }

  /** Block puts its caller, and nobody else, to sleep on the channel, and gives the CPU away. */
  lemma BlockStatus(s: Sched, channel: Addr)
    requires Inv(s) && s.current != s.idle
    ensures Shape(s) && OneStatus(Block(s, channel), s, s.current, Sleeping(channel))
    ensures Block(s, channel).current != s.current
  {
    InvShape(s);
    BlockKeeps(s, channel);
    var r := s.(threads := s.threads[s.current := s.threads[s.current].(state := Blocked, channel := channel)],
                waiting := s.waiting + [s.current]);
    assert Coherent(s, s.current);
    forall t ensures Filed(r, t) {
      assert Coherent(s, t);
      CountPush(s.waiting, s.current, t);
    }
    ReadyShape(r);
    ScheduleStatus(r);
  }

  /** Exit marks its caller, and nobody else, as gone, and gives the CPU away. */
  lemma TerminateStatus(s: Sched)
    requires Inv(s) && s.current != s.idle && s.current != s.reaper
    ensures Shape(s) && OneStatus(Terminate(s), s, s.current, Gone)
    ensures Terminate(s).current != s.current
  {
    InvShape(s);
    TerminateKeeps(s);
    var r := s.(threads := s.threads[s.current := s.threads[s.current].(state := Terminated)],
                dead := s.dead + [s.current]);
    assert Coherent(s, s.current);
    forall t ensures Filed(r, t) {
      assert Coherent(s, t);
      CountPush(s.dead, s.current, t);
    }
    ReadyShape(r);
    ScheduleStatus(r);
  }

  ghost predicate SleepsOn(s: Sched, t: Tid, channel: Addr) {
    t in s.threads && t != s.idle && StatusIn(s, t) == Sleeping(channel)
  }

  /** Waking one: index of the first waiter on the channel, or the length of the wait list. */
  lemma {:induction false} WakeFirst(s: Sched, channel: Addr, i: nat) returns (j: nat)
    requires Shape(s) && i <= |s.waiting|
    ensures i <= j <= |s.waiting|
    ensures forall k :: i <= k < j ==> s.threads[s.waiting[k]].channel != channel
    ensures j == |s.waiting| ==> WakeFrom(s, channel, false, i) == s
    ensures j < |s.waiting| ==> s.threads[s.waiting[j]].channel == channel && WakeFrom(s, channel, false, i) == WakeAt(s, j)
    decreases |s.waiting| - i
  {
    j := i;
    if i < |s.waiting| && s.threads[s.waiting[i]].channel != channel {
      j := WakeFirst(s, channel, i + 1);
    }
  }

  lemma WakeAtStatus(s: Sched, i: nat)
    requires Inv(s) && Shape(s) && i < |s.waiting|
    ensures OneStatus(WakeAt(s, i), s, s.waiting[i], Active) && WakeAt(s, i).current == s.current
    ensures StatusIn(s, s.waiting[i]) == Sleeping(s.threads[s.waiting[i]].channel) && s.waiting[i] != s.idle
  {
    CountIn(s.waiting, s.waiting[i]);
    assert Coherent(s, s.waiting[i]);
  }

  lemma SleeperIsListed(s: Sched, t: Tid, channel: Addr)
    requires Inv(s) && SleepsOn(s, t, channel)
    ensures t in s.waiting && s.threads[t].channel == channel
  {
    assert Coherent(s, t);
    CountIn(s.waiting, t);
  }

  /** The first waiter on the channel. */
  ghost predicate FirstWaiter(s: Sched, channel: Addr, j: nat) {
    && j < |s.waiting| && s.waiting[j] in s.threads && s.threads[s.waiting[j]].channel == channel
    && forall k :: 0 <= k < j ==> s.waiting[k] in s.threads && s.threads[s.waiting[k]].channel != channel
  }

  /** Wake of one: nothing changes when nobody sleeps on the channel; otherwise there is a first sleeper
      on it, and exactly that one becomes active. */
  lemma WakeOneStatus(s: Sched, channel: Addr)
    requires Inv(s)
    ensures Shape(s) && Wake(s, channel, false).current == s.current
    ensures (forall t :: !SleepsOn(s, t, channel)) ==> Wake(s, channel, false) == s
    ensures (exists t :: SleepsOn(s, t, channel)) ==> exists j: nat :: FirstWaiter(s, channel, j)
    ensures forall j: nat :: FirstWaiter(s, channel, j) ==>
      SleepsOn(s, s.waiting[j], channel) && OneStatus(Wake(s, channel, false), s, s.waiting[j], Active)
    ensures forall t :: SleepsOn(s, t, channel) && (forall u :: SleepsOn(s, u, channel) ==> u == t)
              ==> OneStatus(Wake(s, channel, false), s, t, Active)
  {
    InvShape(s);
    var i := WakeFirst(s, channel, 0);
    if i < |s.waiting| {
      WakeAtStatus(s, i);
      assert SleepsOn(s, s.waiting[i], channel) && FirstWaiter(s, channel, i);
      forall j: nat | FirstWaiter(s, channel, j) ensures j == i {}
    } else {
      forall j: nat | FirstWaiter(s, channel, j) ensures false {}
      forall t | SleepsOn(s, t, channel) ensures false {
        SleeperIsListed(s, t, channel);
      }
    }
  }

  /** Wake of any kind changes at most the status of sleepers on the channel, to active. */
  lemma {:induction false} WakeFromStatus(s: Sched, channel: Addr, all: bool, i: nat)
    requires Inv(s) && Shape(s) && i <= |s.waiting|
    ensures var r := WakeFrom(s, channel, all, i);
      && r.threads.Keys == s.threads.Keys && r.idle == s.idle && r.reaper == s.reaper && r.current == s.current
      && forall t :: t in s.threads ==>
           StatusIn(r, t) == StatusIn(s, t) || (SleepsOn(s, t, channel) && StatusIn(r, t) == Active)
    decreases |s.waiting| - i
  {
    if i < |s.waiting| {
      if s.threads[s.waiting[i]].channel != channel {
        WakeFromStatus(s, channel, all, i + 1);
      } else {
        WakeAtStatus(s, i);
        WakeAtKeeps(s, i);
        if all { WakeFromStatus(WakeAt(s, i), channel, all, i); }
      }
    }
  }

  /** Waking all from position i: no sleeper on the channel is left from there on. */
  lemma {:induction false} WakeFromAll(s: Sched, channel: Addr, i: nat)
    requires Inv(s) && Shape(s) && i <= |s.waiting|
    requires forall k :: 0 <= k < i ==> s.threads[s.waiting[k]].channel != channel
    ensures forall t :: !SleepsOn(WakeFrom(s, channel, true, i), t, channel)
    decreases |s.waiting| - i
  {
    if i == |s.waiting| {
      forall t | SleepsOn(s, t, channel) ensures false {
        SleeperIsListed(s, t, channel);
      }
    } else if s.threads[s.waiting[i]].channel != channel {
      WakeFromAll(s, channel, i + 1);
    } else {
      WakeAtKeeps(s, i);
      WakeAtStatus(s, i);
      var w := WakeAt(s, i);
      InvShape(w);
      forall k | 0 <= k < i ensures w.threads[w.waiting[k]].channel != channel {
        assert w.waiting[k] == s.waiting[k];
        CountIn(w.waiting, w.waiting[k]);
        assert Coherent(w, w.waiting[k]);
        CountIn(s.waiting, s.waiting[i]);
      }
      WakeFromAll(w, channel, i);
    }
  }

  /** Wake of all: exactly the sleepers on the channel become active. */
  lemma WakeAllStatus(s: Sched, channel: Addr)
    requires Inv(s)
    ensures Shape(s)
    ensures var r := Wake(s, channel, true);
      && r.current == s.current && r.threads.Keys == s.threads.Keys
      && forall t :: t in s.threads && t != s.idle ==>
           StatusIn(r, t) == if SleepsOn(s, t, channel) then Active else StatusIn(s, t)
  {
    InvShape(s);
    WakeFromStatus(s, channel, true, 0);
    WakeFromAll(s, channel, 0);
    var r := Wake(s, channel, true);
    forall t | t in s.threads && t != s.idle
      ensures StatusIn(r, t) == if SleepsOn(s, t, channel) then Active else StatusIn(s, t)
    {
      assert !SleepsOn(r, t, channel);
    }
  }

  lemma AddStatus(s: Sched, t: Tid, level: nat)
    requires Inv(s) && t !in s.threads && level < NUM_LEVELS
    ensures Shape(s)
    ensures var r := AddThread(s, t, level);
      && r.threads.Keys == s.threads.Keys + {t} && r.idle == s.idle && r.reaper == s.reaper && r.current == s.current
      && StatusIn(r, t) == Active
      && forall u :: u in s.threads ==> StatusIn(r, u) == StatusIn(s, u)
  {
    InvShape(s);
  }

  lemma FreeStatus(s: Sched)
    requires Inv(s) && s.current == s.reaper && s.dying != []
    ensures Shape(s) && s.dying[0] in s.threads && s.dying[0] != s.idle && StatusIn(s, s.dying[0]) == Gone
  {
    FreeKeeps(s);
    CountIn(s.dying, s.dying[0]);
    assert Coherent(s, s.dying[0]);
  }
}
