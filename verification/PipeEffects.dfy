/** What each step of a pipe leaves: who sleeps, who returns with which bytes, and who is notified. */
module PipeEffects {
  import opened PipeModel

  /** Thread `t` aside, the same threads sleep as before, in the same calls; and those of one side have been
      notified as well if `notify`. */
  ghost predicate OthersSleep(p: Pipe, n: Pipe, t: Tid, readers: bool, notify: bool) {
    forall u :: u != t ==>
      && (u in n.sleepers <==> u in p.sleepers)
      && (u in p.sleepers ==> Carries(p.sleepers[u], n.sleepers[u], notify && p.sleepers[u].Reader? == readers))
  }

  predicate Carries(a: Sleeper, b: Sleeper, notify: bool) {
    match a
    case Reader(size, notified) => b == Reader(size, notified || notify)
    case Writer(data, written, notified) => b == Writer(data, written, notified || notify)
  }

  /** A read sleeps exactly when the buffer is empty and a writer is left.  Otherwise it returns the first
      bytes, as many as there are and it asked for; none at all only if it asked for none, or the buffer is
      empty and no writer is left, which is the end of the file.  Writers hear of the room it makes. */
  lemma ReadEffect(p: Pipe, t: Tid, size: nat) returns (data: seq<byte>)
    ensures var n := Read(p, t, size);
      && (t in n.sleepers <==> p.buffer == [] && p.writers > 0)
      && (t in n.sleepers ==> n.sleepers[t] == Reader(size, false) && n.buffer == p.buffer && n.taken == p.taken)
      && (t !in n.sleepers ==>
        && n.taken == p.taken + [(t, data)] && p.buffer == data + n.buffer && |data| <= size && (|data| == size || n.buffer == [])
        && (data == [] ==> size == 0 || (p.buffer == [] && p.writers == 0)))
      && OthersSleep(p, n, t, false, p.buffer != [] && size > 0)
      && n.pushed == p.pushed && n.finished == p.finished && n.readers == p.readers && n.writers == p.writers && n.capacity == p.capacity
  {
    data := p.buffer[..Min(size, |p.buffer|)];
  }

  /** A write that holds the lock puts in as many of its remaining bytes as there is room for.  It sleeps
      exactly when some are left and a reader is, and otherwise returns: with all of them in, or on a full
      buffer that nobody can read. */
  lemma WriteOnEffect(p: Pipe, t: Tid, data: seq<byte>, written: nat) returns (w: nat)
    requires written <= |data| && |p.buffer| <= p.capacity
    ensures var n := WriteOn(p, t, data, written);
      && written <= w <= |data| && n.buffer == p.buffer + data[written..w] && |n.buffer| <= p.capacity
      && (w == |data| || |n.buffer| == p.capacity)
      && (t in n.sleepers <==> w < |data| && p.readers > 0)
      && (t in n.sleepers ==> n.sleepers[t] == Writer(data, w, false) && n.finished == p.finished)
      && (t !in n.sleepers ==> n.finished == p.finished[t := (if t in p.finished then p.finished[t] else []) + data[..w]])
      && OthersSleep(p, n, t, true, w > written)
      && n.pushed == p.pushed + Tagged(t, data[written..w])
      && n.taken == p.taken && n.readers == p.readers && n.writers == p.writers && n.capacity == p.capacity
  {
    w := written + Min(Room(p), |data| - written);
  }

  /** A write without a reader changes nothing; with one it is the loop from its first byte. */
  lemma WriteEffect(p: Pipe, t: Tid, data: seq<byte>)
    ensures p.readers == 0 ==> Write(p, t, data) == p
    ensures p.readers > 0 ==> Write(p, t, data) == WriteOn(p, t, data, 0)
  {}

  /** Closing an end lowers its count, and closing the last one notifies everybody on the other side. */
  lemma CloseEffect(p: Pipe, t: Tid)
    requires t !in p.sleepers
    ensures p.readers > 0 ==> var n := CloseReader(p);
      n == p.(readers := p.readers - 1, sleepers := n.sleepers) && OthersSleep(p, n, t, false, p.readers == 1)
    ensures p.writers > 0 ==> var n := CloseWriter(p);
      n == p.(writers := p.writers - 1, sleepers := n.sleepers) && OthersSleep(p, n, t, true, p.writers == 1)
  {
    if p.readers > 0 { assert CloseReader(p) == p.(readers := p.readers - 1, sleepers := CloseReader(p).sleepers); }
    if p.writers > 0 { assert CloseWriter(p) == p.(writers := p.writers - 1, sleepers := CloseWriter(p).sleepers); }
  }
}
