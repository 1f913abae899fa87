/** The pipe: a bounded FIFO with sleeping readers and writers.  A step runs from taking the lock,
    or from a wake-up, to the next wait or to the return. */
module PipeModel {

  type byte = b: int | 0 <= b < 256
  type Tid = nat

  /** A thread inside Read or Write, asleep on the condition variable of its side. */
  datatype Sleeper =
    | Reader(size: nat, notified: bool)
    | Writer(data: seq<byte>, written: nat, notified: bool)

  /** `pushed`, `taken` and `finished` are history: every byte put in with its writer, every read
      with what it returned, and what each thread's completed writes have put in. */
  datatype Pipe = Pipe(
    capacity: nat,
    buffer: seq<byte>,
    readers: nat,
    writers: nat,
    sleepers: map<Tid, Sleeper>,
    pushed: seq<(Tid, byte)>,
    taken: seq<(Tid, seq<byte>)>,
    finished: map<Tid, seq<byte>>)

  function Notified(s: Sleeper, asReader: bool): Sleeper {
    if s.Reader? == asReader then s.(notified := true) else s
  }

  /** NotifyAll on one of the two condition variables. */
  function Notify(p: Pipe, asReader: bool): Pipe {
    p.(sleepers := map t | t in p.sleepers :: Notified(p.sleepers[t], asReader))
  }

  function Min(a: nat, b: nat): nat { if a <= b then a else b }

  function Tagged(t: Tid, data: seq<byte>): (r: seq<(Tid, byte)>)
    ensures |r| == |data| && forall i :: 0 <= i < |r| ==> r[i] == (t, data[i])
  {
    seq(|data|, i requires 0 <= i < |data| => (t, data[i]))
  }

  function Read(p: Pipe, t: Tid, size: nat): Pipe {
    if p.buffer == [] then
      if p.writers == 0 then p.(sleepers := p.sleepers - {t}, taken := p.taken + [(t, [])])
      else p.(sleepers := p.sleepers[t := Reader(size, false)])
    else
      var k := Min(size, |p.buffer|);
      var n := p.(sleepers := p.sleepers - {t}, buffer := p.buffer[k..], taken := p.taken + [(t, p.buffer[..k])]);
      if k > 0 then Notify(n, false) else n
  }

  function FinishedBy(p: Pipe, t: Tid): seq<byte> {
    if t in p.finished then p.finished[t] else []
  }

  /** A write returns having put in the first `written` bytes of its data. */
  function Finish(p: Pipe, t: Tid, data: seq<byte>, written: nat): Pipe
    requires written <= |data|
  {
    p.(sleepers := p.sleepers - {t}, finished := p.finished[t := FinishedBy(p, t) + data[..written]])
  }

  /** The test at the top of the writer's wait loop, on a full buffer: give up or sleep. */
  function AwaitRoom(p: Pipe, t: Tid, data: seq<byte>, written: nat): Pipe
    requires written <= |data|
  {
    if p.readers == 0 then Finish(p, t, data, written)
    else p.(sleepers := p.sleepers[t := Writer(data, written, false)])
  }

  function Room(p: Pipe): nat { if |p.buffer| < p.capacity then p.capacity - |p.buffer| else 0 }

  /** Put in as many of the remaining bytes as fit, and wake the readers. */
  function Fill(p: Pipe, t: Tid, data: seq<byte>, written: nat): Pipe
    requires written <= |data|
  {
    var k := Min(Room(p), |data| - written);
    Notify(p.(buffer := p.buffer + data[written..written + k],
              pushed := p.pushed + Tagged(t, data[written..written + k])), true)
  }

  /** The writer's loop, from where it holds the lock. */
  function WriteOn(p: Pipe, t: Tid, data: seq<byte>, written: nat): Pipe
    requires written <= |data|
  {
    if written == |data| then Finish(p, t, data, written)
    else if Room(p) == 0 then AwaitRoom(p, t, data, written)
    else
      var k := Min(Room(p), |data| - written);
      var n := Fill(p, t, data, written);
      if written + k == |data| then Finish(n, t, data, written + k) else AwaitRoom(n, t, data, written + k)
  }

  function Write(p: Pipe, t: Tid, data: seq<byte>): Pipe {
    if p.readers == 0 then p else WriteOn(p, t, data, 0)
  }

  function Resume(p: Pipe, t: Tid): Pipe
    requires t in p.sleepers && (p.sleepers[t].Writer? ==> p.sleepers[t].written <= |p.sleepers[t].data|)
  {
    match p.sleepers[t]
    case Reader(size, _) => Read(p, t, size)
    case Writer(data, written, _) => WriteOn(p, t, data, written)
  }

  function CloseReader(p: Pipe): Pipe
    requires p.readers > 0
  {
    var n := p.(readers := p.readers - 1);
    if n.readers == 0 then Notify(n, false) else n
  }

  function CloseWriter(p: Pipe): Pipe
    requires p.writers > 0
  {
    var n := p.(writers := p.writers - 1);
    if n.writers == 0 then Notify(n, true) else n
  }

  // ---- Steps ------------------------------------------------------------------------------------

  datatype Step =
    | ReadCall(t: Tid, size: nat)
    | WriteCall(t: Tid, data: seq<byte>)
    | WakeUp(t: Tid)
    | OpenRead
    | OpenWrite
    | CloseRead
    | CloseWrite

  ghost predicate Enabled(p: Pipe, e: Step) {
    match e
    case ReadCall(t, _) => t !in p.sleepers
    case WriteCall(t, _) => t !in p.sleepers
    case WakeUp(t) => t in p.sleepers
    case OpenRead => true
    case OpenWrite => true
    case CloseRead => p.readers > 0
    case CloseWrite => p.writers > 0
  }

  ghost predicate WellFormed(p: Pipe) {
    forall t :: t in p.sleepers && p.sleepers[t].Writer? ==> p.sleepers[t].written <= |p.sleepers[t].data|
  }

  ghost function Next(p: Pipe, e: Step): Pipe
    requires WellFormed(p) && Enabled(p, e)
  {
    match e
    case ReadCall(t, size) => Read(p, t, size)
    case WriteCall(t, data) => Write(p, t, data)
    case WakeUp(t) => Resume(p, t)
    case OpenRead => p.(readers := p.readers + 1)
    case OpenWrite => p.(writers := p.writers + 1)
    case CloseRead => CloseReader(p)
    case CloseWrite => CloseWriter(p)
  }

  function NewPipe(capacity: nat): Pipe { Pipe(capacity, [], 0, 0, map[], [], [], map[]) }
}
