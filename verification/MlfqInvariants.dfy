/** Every scheduler step keeps the invariant, and says exactly where each thread went. */
module MlfqInvariants {
  import opened MlfqModel

  ghost predicate Base(s: Sched) {
    && |s.queues| == NUM_LEVELS
    && s.idle in s.threads && s.current in s.threads && s.reaper in s.threads
    && s.idle != s.reaper
    && s.threads[s.idle].state == Running && s.threads[s.idle].level < NUM_LEVELS
    && s.threads[s.reaper].state != Terminated
    && s.clock < U64
  }

  /** As Coherent, for the moment ScheduleLocked is called: the outgoing thread is already filed. */
  ghost predicate Filed(s: Sched, t: Tid)
    requires |s.queues| == NUM_LEVELS
  {
    if Worker(s, t) then
      Agrees(s, t) && Links(s, t) <= 1 && s.threads[t].state != Running
    else
      Links(s, t) == 0
  }

  ghost predicate ReadyToSwitch(s: Sched) {
    Base(s) && forall t :: Filed(s, t)
  }

  lemma ReadyShape(s: Sched)
    requires ReadyToSwitch(s)
    ensures Shape(s)
  {
    forall t | t in s.threads ensures s.threads[t].level < NUM_LEVELS { assert Filed(s, t); }
    forall t ensures Links(s, t) > 0 ==> t in s.threads { assert Filed(s, t); }
    AllInIfCounted(s.queues[0], s.threads);
    AllInIfCounted(s.queues[1], s.threads);
    AllInIfCounted(s.queues[2], s.threads);
    AllInIfCounted(s.waiting, s.threads);
  }

  lemma PopCount(queues: seq<seq<Tid>>, l: nat, t: Tid)
    requires |queues| == NUM_LEVELS && l < NUM_LEVELS && queues[l] != []
    ensures forall k :: 0 <= k < NUM_LEVELS && k != l ==> queues[l := queues[l][1..]][k] == queues[k]
    ensures Count(queues[l], t) == Count(queues[l][1..], t) + (if queues[l][0] == t then 1 else 0)
    ensures QueueCount(queues, t) == QueueCount(queues[l := queues[l][1..]], t) + (if queues[l][0] == t then 1 else 0)
  {}

  lemma PushCount(queues: seq<seq<Tid>>, l: nat, x: Tid, t: Tid)
    requires |queues| == NUM_LEVELS && l < NUM_LEVELS
    ensures forall k :: 0 <= k < NUM_LEVELS && k != l ==> queues[l := queues[l] + [x]][k] == queues[k]
    ensures Count(queues[l] + [x], t) == Count(queues[l], t) + (if x == t then 1 else 0)
    ensures QueueCount(queues[l := queues[l] + [x]], t) == QueueCount(queues, t) + (if x == t then 1 else 0)
  {
    CountPush(queues[l], x, t);
  }

  /** ScheduleLocked moves one thread from the queues to the CPU and nothing else. */
  lemma ScheduleThread(s: Sched, t: Tid)
    requires Shape(s) && Base(s) && Filed(s, t)
    requires var l := BestLevel(s.queues); l < NUM_LEVELS ==> Filed(s, s.queues[l][0])
    ensures Coherent(Schedule(s), t)
    ensures t != s.idle ==> Places(Schedule(s), t) == Links(s, t)
  {
    var l := BestLevel(s.queues);
    if l < NUM_LEVELS {
      PopCount(s.queues, l, t);
      PopCount(s.queues, l, s.queues[l][0]);
    }
  }

  lemma ScheduleKeeps(s: Sched)
    requires ReadyToSwitch(s)
    ensures Shape(s)
    ensures Inv(Schedule(s)) && Schedule(s).threads.Keys == s.threads.Keys && Schedule(s).idle == s.idle
    ensures forall t :: t != s.idle ==> Places(Schedule(s), t) == Links(s, t)
  {
    ReadyShape(s);
    var l := BestLevel(s.queues);
    var r := Schedule(s);
    if l < NUM_LEVELS {
      assert Filed(s, s.queues[l][0]);
      PopCount(s.queues, l, s.queues[l][0]);
    }
    forall t
      ensures Coherent(r, t)
      ensures t != s.idle ==> Places(r, t) == Links(s, t)
    {
      assert Filed(s, t);
      ScheduleThread(s, t);
    }
  }

  ghost predicate SamePlaces(r: Sched, s: Sched)
    requires |r.queues| == |s.queues| == NUM_LEVELS
  {
    && r.threads.Keys == s.threads.Keys && r.idle == s.idle
    && forall t :: t != s.idle ==> Places(r, t) == Places(s, t)
  }

  lemma EnqueueCurrent(s: Sched, level: nat)
    requires Inv(s) && s.current != s.idle && level < NUM_LEVELS
    ensures var r := Enqueue(s, s.current, level);
      && ReadyToSwitch(r) && r.threads.Keys == s.threads.Keys
      && forall t :: Links(r, t) == Places(s, t)
  {
    var r := Enqueue(s, s.current, level);
    forall t
      ensures Filed(r, t) && Links(r, t) == Places(s, t)
    {
      assert Coherent(s, t);
      PushCount(s.queues, level, s.current, t);
    }
  }

  lemma ScheduleAfterEnqueue(s: Sched, level: nat)
    requires Inv(s) && s.current != s.idle && level < NUM_LEVELS
    ensures var r := Enqueue(s, s.current, level); Shape(r) && Inv(Schedule(r)) && SamePlaces(Schedule(r), s)
  {
    EnqueueCurrent(s, level);
    ScheduleKeeps(Enqueue(s, s.current, level));
  }

  lemma BoostThread(s: Sched, t: Tid)
    requires Inv(s)
    ensures Coherent(Boost(s), t) && Places(Boost(s), t) == Places(s, t)
    ensures t in s.threads && Links(s, t) == 0 ==> Boost(s).threads[t] == s.threads[t]
  {
    assert Coherent(s, t);
    CountAppend(s.queues[0] + s.queues[1], s.queues[2], t);
    CountAppend(s.queues[0], s.queues[1], t);
    CountIn(s.queues[1], t);
    CountIn(s.queues[2], t);
  }

  lemma BoostKeeps(s: Sched)
    requires Inv(s)
    ensures Inv(Boost(s)) && SamePlaces(Boost(s), s)
    ensures s.current != s.idle ==> Boost(s).threads[s.current] == s.threads[s.current]
  {
    assert Coherent(s, s.current) && Coherent(s, s.idle) && Coherent(s, s.reaper);
    forall t
      ensures Coherent(Boost(s), t) && Places(Boost(s), t) == Places(s, t)
      ensures t in s.threads && Links(s, t) == 0 ==> Boost(s).threads[t] == s.threads[t]
    {
      BoostThread(s, t);
    }
  }

  lemma AdvanceClockKeeps(s: Sched)
    requires Inv(s)
    ensures var r := AdvanceClock(s);
      && Inv(r) && SamePlaces(r, s) && r.current == s.current && r.idle == s.idle
      && (s.current != s.idle ==> r.threads[s.current] == s.threads[s.current])
  {
    var s1 := s.(clock := NextClock(s.clock));
    forall t ensures Coherent(s1, t) && Places(s1, t) == Places(s, t) { assert Coherent(s, t); }
    BoostKeeps(s1);
  }

  lemma ChargeKeeps(s: Sched)
    requires Inv(s)
    ensures Shape(s) && Inv(Charge(s)) && SamePlaces(Charge(s), s)
  {
    InvShape(s);
    assert Coherent(s, s.current);
    var c := s.threads[s.current];
    if s.current != s.idle {
      if c.ticks - 1 <= 0 {
        ScheduleAfterEnqueue(s, Demoted(c.level));
      } else {
        var r := Charge(s);
        forall t ensures Coherent(r, t) && Places(r, t) == Places(s, t) { assert Coherent(s, t); }
      }
    } else if BestLevel(s.queues) < NUM_LEVELS {
      forall t ensures Filed(s, t) { assert Coherent(s, t); }
      ScheduleKeeps(s);
    }
  }

  lemma TickKeeps(s: Sched)
    requires Inv(s)
    ensures Shape(s) && Inv(Tick(s)) && SamePlaces(Tick(s), s)
  {
    InvShape(s);
    AdvanceClockKeeps(s);
    ChargeKeeps(AdvanceClock(s));
  }

  /** A Yield files a Running caller at the back of its queue; a Yield issued by a thread left in
      state Ready drops the caller from every list. */
  lemma YieldKeeps(s: Sched)
    requires Inv(s)
    ensures Shape(s) && Inv(Yield(s)) && Yield(s).threads.Keys == s.threads.Keys && Yield(s).idle == s.idle
    ensures s.current == s.idle || s.threads[s.current].state == Running ==> SamePlaces(Yield(s), s)
    ensures s.current != s.idle && s.threads[s.current].state == Ready ==>
              && Places(Yield(s), s.current) == 0
              && forall t :: t != s.idle && t != s.current ==> Places(Yield(s), t) == Places(s, t)
  {
    InvShape(s);
    assert Coherent(s, s.current);
    if s.current != s.idle && s.threads[s.current].state == Running {
      ScheduleAfterEnqueue(s, s.threads[s.current].level);
    } else {
      forall t ensures Filed(s, t) { assert Coherent(s, t); }
      ScheduleKeeps(s);
    }
  }

  lemma BlockKeeps(s: Sched, channel: Addr)
    requires Inv(s) && s.current != s.idle
    ensures Shape(s) && Inv(Block(s, channel)) && SamePlaces(Block(s, channel), s)
  {
    InvShape(s);
    var r := s.(threads := s.threads[s.current := s.threads[s.current].(state := Blocked, channel := channel)],
                waiting := s.waiting + [s.current]);
    assert Coherent(s, s.current);
    forall t
      ensures Filed(r, t) && Links(r, t) == Places(s, t)
    {
      assert Coherent(s, t);
      CountPush(s.waiting, s.current, t);
    }
    ScheduleKeeps(r);
  }

  lemma WakeAtThread(s: Sched, i: nat, t: Tid)
    requires Inv(s) && Shape(s) && i < |s.waiting|
    ensures Coherent(WakeAt(s, i), t) && Places(WakeAt(s, i), t) == Places(s, t)
  {
    var t0 := s.waiting[i];
    assert Coherent(s, t) && Coherent(s, t0);
    CountRemove(s.waiting, i, t);
    CountRemove(s.waiting, i, t0);
    PushCount(s.queues, s.threads[t0].level, t0, t);
    CountIn(s.waiting, t0);
  }

  lemma WakeAtKeeps(s: Sched, i: nat)
    requires Inv(s) && i < |s.waiting|
    ensures Shape(s) && Inv(WakeAt(s, i)) && SamePlaces(WakeAt(s, i), s)
  {
    InvShape(s);
    var t0 := s.waiting[i];
    CountIn(s.waiting, t0);
    assert Coherent(s, t0);
    forall t ensures Coherent(WakeAt(s, i), t) && Places(WakeAt(s, i), t) == Places(s, t) { WakeAtThread(s, i, t); }
  }

  lemma {:induction false} WakeFromKeeps(s: Sched, channel: Addr, all: bool, i: nat)
    requires Inv(s) && i <= |s.waiting|
    ensures Shape(s) && Inv(WakeFrom(s, channel, all, i)) && SamePlaces(WakeFrom(s, channel, all, i), s)
    decreases |s.waiting| - i
  {
    InvShape(s);
    if i < |s.waiting| {
      if s.threads[s.waiting[i]].channel != channel {
        WakeFromKeeps(s, channel, all, i + 1);
      } else {
        WakeAtKeeps(s, i);
        if all { WakeFromKeeps(WakeAt(s, i), channel, all, i); }
      }
    }
  }

  lemma AddKeeps(s: Sched, t: Tid, level: nat)
    requires Inv(s) && t !in s.threads && level < NUM_LEVELS
    ensures Shape(s)
    ensures var r := AddThread(s, t, level);
      && Inv(r) && r.threads.Keys == s.threads.Keys + {t} && r.idle == s.idle && Places(r, t) == 1
      && forall u :: u != s.idle && u != t ==> Places(r, u) == Places(s, u)
  {
    InvShape(s);
    var r := AddThread(s, t, level);
    forall u
      ensures Coherent(r, u)
      ensures Places(r, u) == Places(s, u) + if u == t then 1 else 0
    {
      assert Coherent(s, u);
      PushCount(s.queues, level, t, u);
    }
    assert Coherent(s, t);
  }

  lemma TerminateKeeps(s: Sched)
    requires Inv(s) && s.current != s.idle && s.current != s.reaper
    ensures Shape(s) && Inv(Terminate(s)) && SamePlaces(Terminate(s), s)
    ensures var r := Terminate(s);
      && s.current in r.dead && r.dead == s.dead + [s.current] && r.dying == s.dying
      && r.current != s.current && s.current in r.threads && r.threads[s.current].state == Terminated
  {
    InvShape(s);
    var r := s.(threads := s.threads[s.current := s.threads[s.current].(state := Terminated)],
                dead := s.dead + [s.current]);
    assert Coherent(s, s.current);
    forall t
      ensures Filed(r, t) && Links(r, t) == Places(s, t)
    {
      assert Coherent(s, t);
      CountPush(s.dead, s.current, t);
    }
    ScheduleKeeps(r);
    assert Coherent(Terminate(s), s.current);
    CountPush(s.dead, s.current, s.current);
  }

  /** The drain empties the shared list, and every thread on either of the reaper's lists is on the
      private one. */
  lemma CollectKeeps(s: Sched)
    requires Inv(s)
    ensures Inv(Collect(s)) && SamePlaces(Collect(s), s)
    ensures Collect(s).dead == [] && forall t :: Count(Collect(s).dying, t) == Count(s.dying, t) + Count(s.dead, t)
  {
    var r := Collect(s);
    forall t ensures Coherent(r, t) && Places(r, t) == Places(s, t) && Count(r.dying, t) == Count(s.dying, t) + Count(s.dead, t) {
      assert Coherent(s, t);
      CountAppend(s.dying, s.dead, t);
    }
  }

  lemma FreeKeeps(s: Sched)
    requires Inv(s) && s.current == s.reaper && s.dying != []
    ensures Shape(s)
    ensures var r := Free(s);
      && Inv(r) && r.threads.Keys == s.threads.Keys - {s.dying[0]} && r.idle == s.idle && s.dying[0] != s.idle
      && forall t :: t != s.idle && t != s.dying[0] ==> Places(r, t) == Places(s, t)
  {
    InvShape(s);
    var t0 := s.dying[0];
    var r := Free(s);
    assert Coherent(s, t0) && Coherent(s, s.reaper);
    forall t
      ensures Coherent(r, t)
      ensures t != s.idle && t != t0 ==> Places(r, t) == Places(s, t)
    {
      assert Coherent(s, t);
      assert s.dying == [t0] + r.dying;
      CountAppend([t0], r.dying, t);
      assert Count([t0], t) == if t == t0 then 1 else 0;
    }
  }

  /** A Yield issued by a worker that an earlier reschedule left in state Ready. */
  ghost predicate Loses(s: Sched, e: Step)
    requires s.current in s.threads
  {
    e == YieldStep && s.current != s.idle && s.threads[s.current].state == Ready
  }

  /** Every step keeps the invariant.  It keeps conservation exactly when it is not a Yield issued
      in state Ready, and no step ever brings a lost thread back. */
  lemma StepKeeps(s: Sched, e: Step)
    requires Inv(s) && Enabled(s, e)
    ensures Shape(s) && Inv(Next(s, e))
    ensures Conserved(Next(s, e)) <==> Conserved(s) && !Loses(s, e)
  {
    match e
    case TickStep => TickKeeps(s); PlacesConserved(Next(s, e), s);
    case YieldStep => YieldKeeps(s);
      if Loses(s, e) {
        assert Worker(Next(s, e), s.current);
      } else {
        assert Coherent(s, s.current);
        PlacesConserved(Next(s, e), s);
      }
    case BlockStep(channel) => BlockKeeps(s, channel); PlacesConserved(Next(s, e), s);
    case WakeStep(channel, all) => WakeFromKeeps(s, channel, all, 0); PlacesConserved(Next(s, e), s);
    case AddStep(t, level) => AddKeeps(s, t, level); AddConserved(s, t, level);
    case ExitStep => TerminateKeeps(s); PlacesConserved(Next(s, e), s);
    case CollectStep => CollectKeeps(s); InvShape(s); PlacesConserved(Next(s, e), s);
    case FreeStep => FreeKeeps(s); FreeConserved(s);
  }

  lemma PlacesConserved(r: Sched, s: Sched)
    requires |r.queues| == |s.queues| == NUM_LEVELS && SamePlaces(r, s)
    ensures Conserved(r) <==> Conserved(s)
  {
    assert forall t :: Worker(r, t) <==> Worker(s, t);
  }

  lemma AddConserved(s: Sched, t: Tid, level: nat)
    requires Inv(s) && t !in s.threads && level < NUM_LEVELS && Shape(s)
    ensures Conserved(AddThread(s, t, level)) <==> Conserved(s)
  {
    AddKeeps(s, t, level);
    var r := AddThread(s, t, level);
    assert forall u :: Worker(r, u) <==> Worker(s, u) || u == t;
  }

  lemma FreeConserved(s: Sched)
    requires Inv(s) && s.current == s.reaper && s.dying != []
    ensures Conserved(Free(s)) <==> Conserved(s)
  {
    FreeKeeps(s);
    var r := Free(s);
    assert forall u :: Worker(r, u) <==> Worker(s, u) && u != s.dying[0];
    assert Coherent(s, s.dying[0]);
  }
}
