/** The pipe as the kernel runs it: bytes pushed and popped one at a time.  Each method is one step,
    proved to compute the function of the same name in `PipeModel`. */
module Pipes {
  import M = PipeModel
  import opened PipeModel

  class SharedPipe {
    const capacity: nat
    var buffer: seq<byte>
    var readers: nat
    var writers: nat
    var sleepers: map<Tid, Sleeper>
    ghost var pushed: seq<(Tid, byte)>
    ghost var taken: seq<(Tid, seq<byte>)>
    ghost var finished: map<Tid, seq<byte>>

    ghost function Model(): Pipe
      reads this
    {
      Pipe(capacity, buffer, readers, writers, sleepers, pushed, taken, finished)
    }

    constructor (capacity: nat)
      ensures Model() == NewPipe(capacity)
    {
      this.capacity := capacity;
      buffer, readers, writers, sleepers := [], 0, 0, map[];
      pushed, taken, finished := [], [], map[];
    }

    method NotifyAll(asReader: bool)
      modifies this`sleepers
      ensures Model() == M.Notify(old(Model()), asReader)
    {
      sleepers := map t | t in sleepers :: Notified(sleepers[t], asReader);
    }

    /** From the lock, or a wake-up of a reader, to the wait or the return. */
    method Read(t: Tid, size: nat) returns (dest: seq<byte>)
      modifies this
      ensures Model() == M.Read(old(Model()), t, size)
      ensures dest == old(buffer)[..Min(size, |old(buffer)|)]
      ensures t in sleepers <==> old(buffer) == [] && writers > 0
    {
      dest := [];
      if buffer == [] {
        if writers == 0 {
          sleepers := sleepers - {t};
          taken := taken + [(t, [])];
        } else {
          sleepers := sleepers[t := Reader(size, false)];
        }
        return;
      }
      dest := PopUpTo(size);
      sleepers := sleepers - {t};
      taken := taken + [(t, dest)];
      if |dest| > 0 {
        NotifyAll(false);
      }
    }

    /** Pop bytes while there are any and they are wanted. */
    method PopUpTo(size: nat) returns (dest: seq<byte>)
      modifies this`buffer
      ensures dest == old(buffer)[..Min(size, |old(buffer)|)] && buffer == old(buffer)[Min(size, |old(buffer)|)..]
    {
      dest := [];
      while |dest| < size && buffer != []
        invariant |dest| <= size && dest + buffer == old(buffer)
        decreases |buffer|
      {
        dest := dest + [buffer[0]];
        buffer := buffer[1..];
      }
      assert dest == old(buffer)[..|dest|] && buffer == old(buffer)[|dest|..];
    }

    /** Push bytes while they fit, then wake the readers. */
    method Fill(t: Tid, data: seq<byte>, written: nat) returns (w: nat)
      requires written < |data| && |buffer| < capacity
      modifies this`buffer, this`pushed, this`sleepers
      ensures Model() == M.Fill(old(Model()), t, data, written)
      ensures w == written + Min(Room(old(Model())), |data| - written)
    {
      w := written;
      while w < |data| && |buffer| < capacity
        invariant written <= w <= |data| && |buffer| == |old(buffer)| + (w - written) <= capacity
        invariant buffer == old(buffer) + data[written..w]
        invariant pushed == old(pushed) + Tagged(t, data[written..w])
        invariant Model() == old(Model()).(buffer := buffer, pushed := pushed)
      {
        buffer := buffer + [data[w]];
        pushed := pushed + [(t, data[w])];
        assert data[written..w + 1] == data[written..w] + [data[w]];
        assert Tagged(t, data[written..w + 1]) == Tagged(t, data[written..w]) + [(t, data[w])];
        w := w + 1;
      }
      NotifyAll(true);
    }

    method Finish(t: Tid, data: seq<byte>, written: nat)
      requires written <= |data|
      modifies this`sleepers, this`finished
      ensures Model() == M.Finish(old(Model()), t, data, written)
    {
      finished := finished[t := FinishedBy(Model(), t) + data[..written]];
      sleepers := sleepers - {t};
    }

    /** The writer's loop, from the lock or a wake-up to the wait or the return; false is EPIPE or a
        wait, true a complete write. */
    method WriteOn(t: Tid, data: seq<byte>, written: nat) returns (done: bool)
      requires written <= |data| && |buffer| <= capacity
      modifies this
      ensures Model() == M.WriteOn(old(Model()), t, data, written)
      ensures done <==> |data| - written <= Room(old(Model()))
      ensures t in sleepers <==> |old(buffer)| + (|data| - written) > capacity && readers > 0
    {
      var w := written;
      ghost var filled := false;
      while w < |data|
        invariant written <= w <= |data|
        invariant !filled ==> w == written && Model() == old(Model())
        invariant filled ==> written < |data| && Room(old(Model())) > 0
        invariant filled ==> w == written + Min(Room(old(Model())), |data| - written) && Model() == M.Fill(old(Model()), t, data, written)
        decreases |data| - w
      {
        if |buffer| >= capacity {
          if readers == 0 {
            Finish(t, data, w);
          } else {
            sleepers := sleepers[t := Writer(data, w, false)];
          }
          return false;
        }
        w := Fill(t, data, w);
        filled := true;
      }
      Finish(t, data, w);
      return true;
    }

    method Write(t: Tid, data: seq<byte>) returns (done: bool)
      requires |buffer| <= capacity
      modifies this
      ensures Model() == M.Write(old(Model()), t, data)
      ensures done <==> old(readers) > 0 && |data| <= Room(old(Model()))
      ensures readers > 0 ==> (t in sleepers <==> |old(buffer)| + |data| > capacity)
    {
      if readers == 0 { return false; }
      done := WriteOn(t, data, 0);
    }

    method DecrementReaders()
      requires readers > 0
      modifies this
      ensures Model() == M.CloseReader(old(Model()))
    {
      readers := readers - 1;
      if readers == 0 { NotifyAll(false); }
    }

    method DecrementWriters()
      requires writers > 0
      modifies this
      ensures Model() == M.CloseWriter(old(Model()))
    {
      writers := writers - 1;
      if writers == 0 { NotifyAll(true); }
    }
  }
}
