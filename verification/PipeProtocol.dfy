/** What holds of the pipe under every interleaving of readers and writers. */
module PipeProtocol {
  import opened PipeModel

  ghost function Bytes(log: seq<(Tid, byte)>): seq<byte> {
    if log == [] then [] else [log[0].1] + Bytes(log[1..])
  }

  /** The bytes one writer put in, in order. */
  ghost function By(log: seq<(Tid, byte)>, t: Tid): seq<byte> {
    if log == [] then [] else (if log[0].0 == t then [log[0].1] else []) + By(log[1..], t)
  }

  ghost function Delivered(taken: seq<(Tid, seq<byte>)>): seq<byte> {
    if taken == [] then [] else taken[0].1 + Delivered(taken[1..])
  }

  /** What a thread's writes have put in so far, the one it sleeps in included. */
  ghost function SentBy(p: Pipe, t: Tid): seq<byte> {
    FinishedBy(p, t) + if t in p.sleepers then InProgress(p.sleepers[t]) else []
  }

  ghost function InProgress(s: Sleeper): seq<byte> {
    if s.Writer? && s.written <= |s.data| then s.data[..s.written] else []
  }

  /** A sleeper nobody has notified has nothing to do: a reader has an empty buffer and a writer
      who may still fill it, a writer has a full buffer and a reader who may still drain it. */
  ghost predicate SleepsRightly(p: Pipe, t: Tid) {
    t in p.sleepers ==>
      match p.sleepers[t]
      case Reader(_, notified) => !notified ==> p.buffer == [] && p.writers > 0
      case Writer(data, written, notified) =>
        written < |data| && (!notified ==> |p.buffer| == p.capacity && p.readers > 0)
  }

  ghost function Settled(p: Pipe): iset<Tid> { iset t | SleepsRightly(p, t) }

  ghost predicate Inv(p: Pipe) {
    && 0 < p.capacity && |p.buffer| <= p.capacity
    && (forall t: Tid :: t in Settled(p))
    && Bytes(p.pushed) == Delivered(p.taken) + p.buffer
    && (forall t :: By(p.pushed, t) == SentBy(p, t))
  }

  lemma {:induction false} BytesAppend(a: seq<(Tid, byte)>, b: seq<(Tid, byte)>)
    ensures Bytes(a + b) == Bytes(a) + Bytes(b)
  {
    if a == [] {
      assert a + b == b;
    } else {
      assert (a + b)[1..] == a[1..] + b;
      BytesAppend(a[1..], b);
    }
  }

  lemma {:induction false} ByAppend(a: seq<(Tid, byte)>, b: seq<(Tid, byte)>, t: Tid)
    ensures By(a + b, t) == By(a, t) + By(b, t)
  {
    if a == [] {
      assert a + b == b;
    } else {
      assert (a + b)[1..] == a[1..] + b;
      ByAppend(a[1..], b, t);
      var h := if a[0].0 == t then [a[0].1] else [];
      Associative(h, By(a[1..], t), By(b, t));
    }
  }

  lemma Associative(a: seq<byte>, b: seq<byte>, c: seq<byte>)
    ensures a + (b + c) == a + b + c
  {}

  lemma Regroup(a: seq<byte>, b: seq<byte>, k: nat)
    requires k <= |b|
    ensures a + b == a + b[..k] + b[k..]
  {}

  lemma {:induction false} DeliveredAppend(a: seq<(Tid, seq<byte>)>, t: Tid, data: seq<byte>)
    ensures Delivered(a + [(t, data)]) == Delivered(a) + data
  {
    if a == [] {
      assert a + [(t, data)] == [(t, data)];
      assert Delivered([(t, data)][1..]) == [];
    } else {
      assert (a + [(t, data)])[1..] == a[1..] + [(t, data)];
      DeliveredAppend(a[1..], t, data);
    }
  }

  lemma {:induction false} TaggedLog(t: Tid, data: seq<byte>, u: Tid)
    ensures Bytes(Tagged(t, data)) == data && By(Tagged(t, data), u) == if u == t then data else []
  {
    if data != [] {
      assert Tagged(t, data)[1..] == Tagged(t, data[1..]);
      assert data == [data[0]] + data[1..];
      TaggedLog(t, data[1..], u);
    }
  }

  lemma InvWellFormed(p: Pipe)
    requires forall t: Tid :: t in Settled(p)
    ensures WellFormed(p)
  {
    forall t | t in p.sleepers && p.sleepers[t].Writer? ensures p.sleepers[t].written <= |p.sleepers[t].data| {
      assert t in Settled(p);
    }
  }

  lemma ReadBytes(p: Pipe, t: Tid, size: nat)
    requires Bytes(p.pushed) == Delivered(p.taken) + p.buffer && |p.buffer| <= p.capacity
    ensures var n := Read(p, t, size); Bytes(n.pushed) == Delivered(n.taken) + n.buffer && |n.buffer| <= n.capacity
  {
    var n := Read(p, t, size);
    if p.buffer == [] {
      DeliveredAppend(p.taken, t, []);
      assert Delivered(p.taken) + [] == Delivered(p.taken);
    } else {
      var k := Min(size, |p.buffer|);
      DeliveredAppend(p.taken, t, p.buffer[..k]);
      Regroup(Delivered(p.taken), p.buffer, k);
      assert n.taken == p.taken + [(t, p.buffer[..k])] && n.buffer == p.buffer[k..] && n.pushed == p.pushed;
    }
  }

  lemma ReadThread(p: Pipe, t: Tid, size: nat, u: Tid)
    requires SleepsRightly(p, u) && By(p.pushed, u) == SentBy(p, u)
    requires t in p.sleepers ==> p.sleepers[t].Reader?
    ensures SleepsRightly(Read(p, t, size), u) && By(Read(p, t, size).pushed, u) == SentBy(Read(p, t, size), u)
  {
    var n := Read(p, t, size);
    assert FinishedBy(n, u) == FinishedBy(p, u) && n.pushed == p.pushed;
    if u != t {
      assert u in n.sleepers <==> u in p.sleepers;
      if u in p.sleepers { assert n.sleepers[u] == p.sleepers[u] || n.sleepers[u] == Notified(p.sleepers[u], false); }
    }
  }

  lemma ReadKeeps(p: Pipe, t: Tid, size: nat)
    requires Inv(p) && (t in p.sleepers ==> p.sleepers[t].Reader?)
    ensures Inv(Read(p, t, size))
  {
    ReadBytes(p, t, size);
    forall u: Tid ensures u in Settled(Read(p, t, size)) && By(Read(p, t, size).pushed, u) == SentBy(Read(p, t, size), u) {
      assert u in Settled(p);
      ReadThread(p, t, size, u);
    }
  }

  /** The invariant with thread `t` awake in a write that has put in `written` bytes. */
  ghost predicate Writing(p: Pipe, t: Tid, data: seq<byte>, written: nat) {
    && 0 < p.capacity && |p.buffer| <= p.capacity && written <= |data|
    && (forall u: Tid :: u != t ==> u in Settled(p))
    && Bytes(p.pushed) == Delivered(p.taken) + p.buffer
    && By(p.pushed, t) == FinishedBy(p, t) + data[..written]
    && (forall u :: u != t ==> By(p.pushed, u) == SentBy(p, u))
  }

  lemma FinishKeeps(p: Pipe, t: Tid, data: seq<byte>, written: nat)
    requires Writing(p, t, data, written)
    ensures Inv(Finish(p, t, data, written))
  {
    var n := Finish(p, t, data, written);
    forall u: Tid ensures u in Settled(n) { if u != t { assert u in Settled(p); } }
    forall u ensures By(n.pushed, u) == SentBy(n, u) { if u != t { assert By(p.pushed, u) == SentBy(p, u); } }
  }

  lemma AwaitRoomKeeps(p: Pipe, t: Tid, data: seq<byte>, written: nat)
    requires Writing(p, t, data, written) && written < |data| && |p.buffer| == p.capacity
    ensures Inv(AwaitRoom(p, t, data, written))
  {
    if p.readers == 0 {
      FinishKeeps(p, t, data, written);
    } else {
      var n := AwaitRoom(p, t, data, written);
      forall u: Tid ensures u in Settled(n) { if u != t { assert u in Settled(p); } }
      forall u ensures By(n.pushed, u) == SentBy(n, u) { if u != t { assert By(p.pushed, u) == SentBy(p, u); } }
    }
  }

  lemma FillLog(p: Pipe, t: Tid, chunk: seq<byte>, u: Tid)
    ensures Bytes(p.pushed + Tagged(t, chunk)) == Bytes(p.pushed) + chunk
    ensures By(p.pushed + Tagged(t, chunk), u) == By(p.pushed, u) + if u == t then chunk else []
  {
    BytesAppend(p.pushed, Tagged(t, chunk));
    ByAppend(p.pushed, Tagged(t, chunk), u);
    TaggedLog(t, chunk, u);
  }

  lemma FillOther(p: Pipe, t: Tid, data: seq<byte>, written: nat, u: Tid)
    requires written < |data| && u != t && SleepsRightly(p, u) && By(p.pushed, u) == SentBy(p, u) && Room(p) > 0
    ensures var n := Fill(p, t, data, written); SleepsRightly(n, u) && By(n.pushed, u) == SentBy(n, u)
  {
    var k := Min(Room(p), |data| - written);
    FillLog(p, t, data[written..written + k], u);
    var n := Fill(p, t, data, written);
    assert FinishedBy(n, u) == FinishedBy(p, u);
    if u in p.sleepers { assert n.sleepers[u] == Notified(p.sleepers[u], true); }
  }

  lemma FillKeeps(p: Pipe, t: Tid, data: seq<byte>, written: nat)
    requires Writing(p, t, data, written) && Room(p) > 0 && written < |data|
    ensures Writing(Fill(p, t, data, written), t, data, written + Min(Room(p), |data| - written))
  {
    var k := Min(Room(p), |data| - written);
    var chunk := data[written..written + k];
    FillLog(p, t, chunk, t);
    Associative(Delivered(p.taken), p.buffer, chunk);
    Associative(FinishedBy(p, t), data[..written], chunk);
    assert data[..written] + chunk == data[..written + k];
    var n := Fill(p, t, data, written);
    forall u: Tid | u != t ensures u in Settled(n) && By(n.pushed, u) == SentBy(n, u) {
      assert u in Settled(p);
      FillOther(p, t, data, written, u);
    }
  }

  lemma WriteOnKeeps(p: Pipe, t: Tid, data: seq<byte>, written: nat)
    requires Writing(p, t, data, written)
    ensures Inv(WriteOn(p, t, data, written))
  {
    if written == |data| {
      FinishKeeps(p, t, data, written);
    } else if Room(p) == 0 {
      AwaitRoomKeeps(p, t, data, written);
    } else {
      var n, w := Fill(p, t, data, written), written + Min(Room(p), |data| - written);
      FillKeeps(p, t, data, written);
      WriteEnds(n, t, data, w);
      var end := if w == |data| then Finish(n, t, data, w) else AwaitRoom(n, t, data, w);
      assert WriteOn(p, t, data, written) == end;
      assert Inv(end);
    }
  }

  /** A write that has filled the buffer, or has nothing left, ends its step. */
  lemma WriteEnds(n: Pipe, t: Tid, data: seq<byte>, written: nat)
    requires Writing(n, t, data, written) && (written < |data| ==> |n.buffer| == n.capacity)
    ensures Inv(if written == |data| then Finish(n, t, data, written) else AwaitRoom(n, t, data, written))
  {
    if written == |data| { FinishKeeps(n, t, data, written); } else { AwaitRoomKeeps(n, t, data, written); }
  }

  /** Every step of every reader and writer keeps the invariant. */
  lemma StepKeeps(p: Pipe, e: Step)
    requires Inv(p) && Enabled(p, e)
    ensures WellFormed(p) && Inv(Next(p, e))
  {
    InvWellFormed(p);
    match e
    case ReadCall(t, size) => ReadKeeps(p, t, size);
    case WriteCall(t, data) =>
      assert By(p.pushed, t) == SentBy(p, t);
      if p.readers > 0 { WriteOnKeeps(p, t, data, 0); }
    case WakeUp(t) =>
      assert t in Settled(p) && By(p.pushed, t) == SentBy(p, t);
      match p.sleepers[t] {
        case Reader(size, _) => ReadKeeps(p, t, size);
        case Writer(data, written, _) => WriteOnKeeps(p, t, data, written);
      }
    case _ => EndsKeep(p, e);
  }

  /** Opening and closing ends. */
  lemma EndsKeep(p: Pipe, e: Step)
    requires Inv(p) && WellFormed(p) && Enabled(p, e) && !e.ReadCall? && !e.WriteCall? && !e.WakeUp?
    ensures Inv(Next(p, e))
  {
    var n := Next(p, e);
    forall u: Tid ensures u in Settled(n) { assert u in Settled(p); }
    forall u ensures By(n.pushed, u) == SentBy(n, u) { assert By(p.pushed, u) == SentBy(p, u); }
  }

  ghost predicate Feasible(p: Pipe, run: seq<Step>)
    decreases |run|
  {
    run != [] ==> WellFormed(p) && Enabled(p, run[0]) && Feasible(Next(p, run[0]), run[1..])
  }

  ghost function After(p: Pipe, run: seq<Step>): Pipe
    requires Feasible(p, run)
    decreases |run|
  {
    if run == [] then p else After(Next(p, run[0]), run[1..])
  }

  lemma {:induction false} RunKeeps(p: Pipe, run: seq<Step>)
    requires Inv(p) && Feasible(p, run)
    ensures Inv(After(p, run))
    decreases |run|
  {
    if run != [] {
      StepKeeps(p, run[0]);
      RunKeeps(Next(p, run[0]), run[1..]);
    }
  }

  /** After any run on a new pipe: bytes put in are bytes read followed by the buffer; the buffer
      is within its capacity; each writer's bytes are in order; and no reader and writer are asleep
      at the same time without a notification on its way. */
  lemma PipeIsFifo(capacity: nat, run: seq<Step>)
    requires capacity > 0 && Feasible(NewPipe(capacity), run)
    ensures var p := After(NewPipe(capacity), run);
      && Bytes(p.pushed) == Delivered(p.taken) + p.buffer && |p.buffer| <= p.capacity
      && (forall t :: By(p.pushed, t) == SentBy(p, t))
      && (forall r, w :: r in p.sleepers && w in p.sleepers && p.sleepers[r].Reader? && p.sleepers[w].Writer? ==>
            p.sleepers[r].notified || p.sleepers[w].notified)
  {
    RunKeeps(NewPipe(capacity), run);
    var p := After(NewPipe(capacity), run);
    forall r, w | r in p.sleepers && w in p.sleepers && p.sleepers[r].Reader? && p.sleepers[w].Writer?
      ensures p.sleepers[r].notified || p.sleepers[w].notified
    {
      assert r in Settled(p) && w in Settled(p);
    }
  }

  /** No lost wake-up: whenever a sleeper could make progress it has been notified. */
  lemma WhoCanProceedIsNotified(capacity: nat, run: seq<Step>, t: Tid)
    requires capacity > 0 && Feasible(NewPipe(capacity), run) && t in After(NewPipe(capacity), run).sleepers
    ensures var p := After(NewPipe(capacity), run); var s := p.sleepers[t];
      && (s.Reader? && (p.buffer != [] || p.writers == 0) ==> s.notified)
      && (s.Writer? && (Room(p) > 0 || p.readers == 0) ==> s.notified)
  {
    RunKeeps(NewPipe(capacity), run);
    assert t in Settled(After(NewPipe(capacity), run));
  }
}
